/** The two validators of the action boundary, written independently of each other, and the private-name scan. */
module SchemaValidation {
  import opened Json
  import opened Wrappers
  import opened SchemaContract

  /** `oneOf` is falsy when it is missing or empty; then `anyOf` decides. */
  predicate UsesOneOf(s: Schema)
    requires s.Schema?
  {
    s.oneOf.BadBranches? || (s.oneOf.Branches? && s.oneOf.list != [])
  }

  /** No mapping at any depth of the value has a runtime-private key. */
  predicate NoPrivateName(lex: Lexicon, v: Json) {
    match v
    case Obj(fields) =>
      forall i | 0 <= i < |fields| :: !lex.privateName(fields[i].key) && NoPrivateName(lex, fields[i].value)
    case Arr(items) =>
      forall i | 0 <= i < |items| :: NoPrivateName(lex, items[i])
    case _ => true
  }

  predicate HasPrivateKey(lex: Lexicon, v: Json) {
    v.Obj? && exists i | 0 <= i < |v.fields| :: lex.privateName(v.fields[i].key)
  }

  // ---- validate_value ----

  /** `oneOf` wants exactly one matching branch, `anyOf` at least one. */
  predicate UnionHolds(s: Schema, matches: nat)
    requires s.Schema?
  {
    matches != 0 && (!s.oneOf.NoBranches? ==> matches == 1)
  }

  predicate WithinStringBounds(lex: Lexicon, text: string, s: Schema)
    requires s.Schema?
  {
    && (s.pattern.Is? ==> lex.fullMatch(s.pattern.value, text))
    && (s.minLength.Is? ==> |text| >= s.minLength.value)
    && (s.maxLength.Is? ==> |text| <= s.maxLength.value)
  }

  predicate WithinNumericBounds(v: Json, s: Schema)
    requires s.Schema?
  {
    && IsFiniteNumber(v)
    && (s.minimum.Is? ==> NumberOf(v) >= s.minimum.value)
    && (s.maximum.Is? ==> NumberOf(v) <= s.maximum.value)
  }

  /** The value keywords shared by all scalar types. */
  predicate ScalarKeywordsHold(lex: Lexicon, v: Json, s: Schema)
    requires s.Schema?
  {
    && (s.constant.Some? ==> PyEqual(v, s.constant.value))
    && (!s.enumeration.Absent? ==> PyMember(v, ListOf(s.enumeration)))
    && (v.Str? ==> WithinStringBounds(lex, v.s, s))
    && (v.Int? || v.Float? ==> WithinNumericBounds(v, s))
  }

  /** `validate_value` returns without raising. */
  predicate Accepts(lex: Lexicon, v: Json, s: Schema)
    decreases s, 1
  {
    && s.Schema?
    && if UsesOneOf(s) then
         s.oneOf.Branches? && UnionHolds(s, AcceptCount(lex, v, s.oneOf.list))
       else if !s.anyOf.NoBranches? then
         s.anyOf.Branches? && UnionHolds(s, AcceptCount(lex, v, s.anyOf.list))
       else
         && !s.typ.Malformed?
         && match s.typ
            case Is(TNull) => v.Null?
            case Is(TArray) => v.Arr? && AcceptsArray(lex, v.items, s)
            case Is(TObject) => v.Obj? && AcceptsObject(lex, v.fields, s)
            case _ => (s.typ.Is? ==> ScalarMatchesType(v, s.typ.value)) && ScalarKeywordsHold(lex, v, s)
  }

  /** How many branches of a union accept the value. */
  function AcceptCount(lex: Lexicon, v: Json, branches: seq<Schema>): nat
    decreases branches, 0
  {
    if branches == [] then 0
    else
      AcceptCount(lex, v, branches[..|branches| - 1]) + (if Accepts(lex, v, branches[|branches| - 1]) then 1 else 0)
  }

  /** Accepted by the empty schema, which stands in for missing `items`: only a number that is not finite is refused. */
  predicate AcceptedUntyped(v: Json) {
    v.Int? || v.Float? ==> IsFiniteNumber(v)
  }

  predicate AcceptsArray(lex: Lexicon, items: seq<Json>, s: Schema)
    requires s.Schema?
    decreases s, 0
  {
    && |items| >= MinItems(s)
    && (s.maxItems.Is? ==> |items| <= s.maxItems.value)
    && !s.items.Malformed?
    && (forall i | 0 <= i < |items| && s.items.Is? :: Accepts(lex, items[i], s.items.value))
    && (forall i | 0 <= i < |items| && s.items.Absent? :: AcceptedUntyped(items[i]))
  }

  predicate AcceptsObject(lex: Lexicon, fields: seq<Field>, s: Schema)
    requires s.Schema?
    decreases s, 0
  {
    && (s.maxProperties.Is? ==> |fields| <= s.maxProperties.value)
    && (forall r | r in ListOf(s.required) :: HasKey(fields, r))
    && !s.properties.BadProperties?
    && (ForbidsUndeclared(s) ==> forall i | 0 <= i < |fields| :: Declares(PropertyList(s), fields[i].key))
    && (s.propertyNames.Is? ==> forall i | 0 <= i < |fields| :: Accepts(lex, Str(fields[i].key), s.propertyNames.value))
    && (s.properties.Properties? ==>
          forall i, j | 0 <= i < |fields| && 0 <= j < |s.properties.list| ::
            s.properties.list[j].name == fields[i].key ==> Accepts(lex, fields[i].value, s.properties.list[j].schema))
    && (s.additional.Typed? ==>
          forall i | 0 <= i < |fields| ::
            Declares(PropertyList(s), fields[i].key) || Accepts(lex, fields[i].value, s.additional.schema))
  }

  /** `additionalProperties` is false, also when the keyword is missing. */
  predicate ForbidsUndeclared(s: Schema)
    requires s.Schema?
  {
    s.additional.NoAdditional? || s.additional == Flag(false)
  }

  // ---- _value_violation ----

  predicate TypeMatches(v: Json, typ: Keyword<TypeName>) {
    typ.Is? && (typ.value == JsonType(v) || (typ.value == TNumber && JsonType(v) == TInteger))
  }

  predicate UnionViolated(s: Schema, clean: nat)
    requires s.Schema?
  {
    clean == 0 || !(s.oneOf.NoBranches? || clean == 1)
  }

  predicate ScalarViolates(lex: Lexicon, v: Json, s: Schema)
    requires s.Schema?
  {
    || (s.constant.Some? && !PyEqual(v, s.constant.value))
    || (!s.enumeration.Absent? && !PyMember(v, ListOf(s.enumeration)))
    || (v.Str? && StringViolates(lex, v.s, s))
    || ((v.Int? || v.Float?) && NumberViolates(v, s))
  }

  predicate StringViolates(lex: Lexicon, text: string, s: Schema)
    requires s.Schema?
  {
    || (s.pattern.Is? && !lex.fullMatch(s.pattern.value, text))
    || (s.minLength.Is? && |text| < s.minLength.value)
    || (s.maxLength.Is? && |text| > s.maxLength.value)
  }

  predicate NumberViolates(v: Json, s: Schema)
    requires s.Schema?
  {
    || !IsFiniteNumber(v)
    || (s.minimum.Is? && NumberOf(v) < s.minimum.value)
    || (s.maximum.Is? && NumberOf(v) > s.maximum.value)
  }

  /** `_value_violation` returns a violation. */
  predicate Violates(lex: Lexicon, v: Json, s: Schema)
    decreases s, 1
  {
    || HasPrivateKey(lex, v)
    || !s.Schema?
    || if UsesOneOf(s) && s.oneOf.Branches? then
         UnionViolated(s, CleanCount(lex, v, s.oneOf.list))
       else if !UsesOneOf(s) && s.anyOf.Branches? then
         UnionViolated(s, CleanCount(lex, v, s.anyOf.list))
       else
         || !TypeMatches(v, s.typ)
         || match s.typ.value
            case TObject => ObjectViolates(lex, v.fields, s)
            case TArray => ArrayViolates(lex, v.items, s)
            case _ => ScalarViolates(lex, v, s)
  }

  /** How many branches of a union report no violation. */
  function CleanCount(lex: Lexicon, v: Json, branches: seq<Schema>): nat
    decreases branches, 0
  {
    if branches == [] then 0
    else
      CleanCount(lex, v, branches[..|branches| - 1]) + (if Violates(lex, v, branches[|branches| - 1]) then 0 else 1)
  }

  predicate ObjectViolates(lex: Lexicon, fields: seq<Field>, s: Schema)
    requires s.Schema?
    decreases s, 0
  {
    || (s.maxProperties.Is? && |fields| > s.maxProperties.value)
    || (exists r | r in ListOf(s.required) :: !HasKey(fields, r))
    || s.properties.BadProperties?
    || (ForbidsUndeclared(s) && exists i | 0 <= i < |fields| :: !Declares(PropertyList(s), fields[i].key))
    || (s.propertyNames.Is? &&
        exists i | 0 <= i < |fields| :: Violates(lex, Str(fields[i].key), s.propertyNames.value))
    || exists i | 0 <= i < |fields| :: FieldViolates(lex, fields[i], s)
  }

  /** The value of one field breaks the schema that governs its key, if one does. */
  predicate FieldViolates(lex: Lexicon, f: Field, s: Schema)
    requires s.Schema?
    decreases s, 0, 0
  {
    if Declares(PropertyList(s), f.key) then
      s.properties.Properties? &&
      exists j | 0 <= j < |s.properties.list| ::
        s.properties.list[j].name == f.key && Violates(lex, f.value, s.properties.list[j].schema)
    else
      s.additional.Typed? && Violates(lex, f.value, s.additional.schema)
  }

  predicate ArrayViolates(lex: Lexicon, items: seq<Json>, s: Schema)
    requires s.Schema?
    decreases s, 0
  {
    || |items| < MinItems(s)
    || (s.maxItems.Is? && |items| > s.maxItems.value)
    || s.items.Malformed?
    || (s.items.Absent? && items != [])
    || exists i | 0 <= i < |items| && s.items.Is? :: Violates(lex, items[i], s.items.value)
  }

  // ---- the loops of validate_value ----

  /** `validate_value` as written: branch counting, then one keyword after another, first failure wins. */
  method ValidateValue(lex: Lexicon, v: Json, s: Schema) returns (accepted: bool)
    ensures accepted == Accepts(lex, v, s)
    decreases s, 1
  {
    if s.NotAMapping? {
      return false;
    }
    if UsesOneOf(s) || !s.anyOf.NoBranches? {
      if (if UsesOneOf(s) then s.oneOf.BadBranches? else s.anyOf.BadBranches?) {
        return false;
      }
      var matches := CountMatches(lex, v, if UsesOneOf(s) then s.oneOf.list else s.anyOf.list);
      return UnionHolds(s, matches);
    }
    if s.typ == Is(TNull) {
      accepted := v.Null?;
    } else if s.typ == Is(TArray) {
      accepted := false;
      if v.Arr? {
        accepted := ValidateItems(lex, v.items, s);
      }
    } else if s.typ == Is(TObject) {
      accepted := false;
      if v.Obj? {
        accepted := ValidateFields(lex, v.fields, s);
      }
    } else {
      accepted := !s.typ.Malformed? && (s.typ.Is? ==> ScalarMatchesType(v, s.typ.value))
        && ScalarKeywordsHold(lex, v, s);
    }
  }

  method CountMatches(lex: Lexicon, v: Json, branches: seq<Schema>) returns (matches: nat)
    ensures matches == AcceptCount(lex, v, branches)
    decreases branches, 0
  {
    matches := 0;
    for k := 0 to |branches|
      invariant matches == AcceptCount(lex, v, branches[..k])
    {
      var accepted := ValidateValue(lex, v, branches[k]);
      assert branches[..k + 1][..k] == branches[..k];
      if accepted {
        matches := matches + 1;
      }
    }
    assert branches[..|branches|] == branches;
  }

  method ValidateItems(lex: Lexicon, items: seq<Json>, s: Schema) returns (accepted: bool)
    requires s.Schema?
    ensures accepted == AcceptsArray(lex, items, s)
    decreases s, 0
  {
    if |items| < MinItems(s) || (s.maxItems.Is? && |items| > s.maxItems.value) || s.items.Malformed? {
      return false;
    }
    for k := 0 to |items|
      invariant forall i | 0 <= i < k && s.items.Is? :: Accepts(lex, items[i], s.items.value)
      invariant forall i | 0 <= i < k && s.items.Absent? :: AcceptedUntyped(items[i])
    {
      if s.items.Is? {
        accepted := ValidateValue(lex, items[k], s.items.value);
      } else {
        accepted := AcceptedUntyped(items[k]);
      }
      if !accepted {
        return;
      }
    }
    accepted := true;
  }

  method ValidateFields(lex: Lexicon, fields: seq<Field>, s: Schema) returns (accepted: bool)
    requires s.Schema?
    ensures accepted == AcceptsObject(lex, fields, s)
    decreases s, 0
  {
    if || (s.maxProperties.Is? && |fields| > s.maxProperties.value)
       || (exists r | r in ListOf(s.required) :: !HasKey(fields, r))
       || s.properties.BadProperties?
       || (ForbidsUndeclared(s) && exists i | 0 <= i < |fields| :: !Declares(PropertyList(s), fields[i].key)) {
      return false;
    }
    if s.propertyNames.Is? {
      for k := 0 to |fields|
        invariant forall i | 0 <= i < k :: Accepts(lex, Str(fields[i].key), s.propertyNames.value)
      {
        accepted := ValidateValue(lex, Str(fields[k].key), s.propertyNames.value);
        if !accepted {
          return;
        }
      }
    }
    for k := 0 to |fields|
      invariant forall i | 0 <= i < k :: FieldAccepted(lex, fields[i], s)
    {
      accepted := ValidateField(lex, fields[k], s);
      if !accepted {
        return;
      }
    }
    accepted := true;
    assert AcceptsObject(lex, fields, s) by {
      forall i, j | 0 <= i < |fields| && 0 <= j < |PropertyList(s)| && s.properties.list[j].name == fields[i].key
        ensures Accepts(lex, fields[i].value, s.properties.list[j].schema)
      {
        assert FieldAccepted(lex, fields[i], s);
      }
      forall i | 0 <= i < |fields| && s.additional.Typed?
        ensures Declares(PropertyList(s), fields[i].key) || Accepts(lex, fields[i].value, s.additional.schema)
      {
        assert FieldAccepted(lex, fields[i], s);
      }
    }
  }

  ghost predicate FieldAccepted(lex: Lexicon, f: Field, s: Schema)
    requires s.Schema?
  {
    && (s.properties.Properties? ==> forall j | 0 <= j < |s.properties.list| ::
          s.properties.list[j].name == f.key ==> Accepts(lex, f.value, s.properties.list[j].schema))
    && (s.additional.Typed? ==> Declares(PropertyList(s), f.key) || Accepts(lex, f.value, s.additional.schema))
  }

  method ValidateField(lex: Lexicon, f: Field, s: Schema) returns (accepted: bool)
    requires s.Schema?
    ensures accepted == FieldAccepted(lex, f, s)
    decreases s, 0, 0
  {
    if s.properties.Properties? {
      for k := 0 to |s.properties.list|
        invariant forall j | 0 <= j < k ::
                    s.properties.list[j].name == f.key ==> Accepts(lex, f.value, s.properties.list[j].schema)
      {
        if s.properties.list[k].name == f.key {
          accepted := ValidateValue(lex, f.value, s.properties.list[k].schema);
          if !accepted {
            return;
          }
        }
      }
    }
    if s.additional.Typed? && !Declares(PropertyList(s), f.key) {
      accepted := ValidateValue(lex, f.value, s.additional.schema);
      return;
    }
    accepted := true;
  }
}
