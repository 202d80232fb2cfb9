/**
 What acceptance means, keyword by keyword, in terms of the value and the schema alone. Together with the agreement of
 the validators this is what either of them decides.
 */
module SchemaMeaning {
  import opened Json
  import opened Wrappers
  import opened SchemaContract
  import opened SchemaValidation

  /** Neither union keyword decides; an empty `oneOf` counts as missing. */
  predicate NoUnion(s: Schema)
    requires s.Schema?
  {
    (s.oneOf.NoBranches? || s.oneOf == Branches([])) && s.anyOf.NoBranches?
  }

  // ---- equality ----

  /** Python's equality: numbers and flags by value, NaN with nothing, everything else by structure. */
  lemma EqualityIs(a: Json, b: Json)
    ensures a.Int? && b.Int? ==> (PyEqual(a, b) <==> a.i == b.i)
    ensures a.Bool? && b.Int? ==> (PyEqual(a, b) <==> b.i == if a.b then 1 else 0)
    ensures a.Float? && b.Float? ==> (PyEqual(a, b) <==> a.f == b.f && !a.f.NaN?)
    ensures a.Int? && b.Float? ==> (PyEqual(a, b) <==> b.f == Finite(a.i as real))
    ensures !(a.Bool? || a.Int? || a.Float?) ==> (PyEqual(a, b) <==> a == b)
    ensures PyEqual(a, b) <==> PyEqual(b, a)
  {
  }

  // ---- scalars ----

  /** A constant that counts as the number: an integer or a finite float of that value, or a flag as 0 or 1. */
  predicate CountsAs(c: Json, x: real) {
    match c
    case Int(i) => i as real == x
    case Float(Finite(r)) => r == x
    case Bool(b) => x == if b then 1.0 else 0.0
    case _ => false
  }

  predicate SomeCountsAs(values: seq<Json>, x: real) {
    exists i | 0 <= i < |values| :: CountsAs(values[i], x)
  }

  /** The pinned values allow the number: the constant is it, and some enumerated value is. */
  predicate PinsAllow(s: Schema, x: real)
    requires s.Schema?
  {
    && (s.constant.Some? ==> CountsAs(s.constant.value, x))
    && match s.enumeration
       case Absent => true
       case Is(values) => SomeCountsAs(values, x)
       case Malformed => false
  }

  predicate RangeAllows(s: Schema, x: real)
    requires s.Schema?
  {
    match (s.minimum, s.maximum)
    case (Is(low), Is(high)) => low <= x <= high
    case (Is(low), _) => low <= x
    case (_, Is(high)) => x <= high
    case (_, _) => true
  }

  lemma MemberCounts(v: Json, values: seq<Json>, x: real)
    requires CountsAs(v, x)
    ensures forall c :: PyEqual(v, c) <==> CountsAs(c, x)
    ensures PyMember(v, values) <==> SomeCountsAs(values, x)
  {
  }

  /** An integer schema accepts exactly the integers in its range and among its pins. */
  lemma AcceptedIntegers(lex: Lexicon, v: Json, s: Schema)
    requires s.Schema? && NoUnion(s) && s.typ == Is(TInteger)
    ensures Accepts(lex, v, s) <==> v.Int? && RangeAllows(s, v.i as real) && PinsAllow(s, v.i as real)
  {
    if v.Int? {
      MemberCounts(v, ListOf(s.enumeration), v.i as real);
    }
  }

  /** A number schema accepts integers and finite floats alike; infinities and NaN never. */
  lemma AcceptedNumbers(lex: Lexicon, v: Json, s: Schema)
    requires s.Schema? && NoUnion(s) && s.typ == Is(TNumber)
    ensures Accepts(lex, v, s) <==>
              match v
              case Int(i) => RangeAllows(s, i as real) && PinsAllow(s, i as real)
              case Float(Finite(r)) => RangeAllows(s, r) && PinsAllow(s, r)
              case _ => false
  {
    if IsFiniteNumber(v) {
      MemberCounts(v, ListOf(s.enumeration), NumberOf(v));
    }
  }

  /** A boolean schema has no range; 0 and 1 are as good as pins as the flags themselves. */
  lemma AcceptedBooleans(lex: Lexicon, v: Json, s: Schema)
    requires s.Schema? && NoUnion(s) && s.typ == Is(TBoolean)
    ensures Accepts(lex, v, s) <==> v.Bool? && PinsAllow(s, if v.b then 1.0 else 0.0)
  {
    if v.Bool? {
      MemberCounts(v, ListOf(s.enumeration), if v.b then 1.0 else 0.0);
    }
  }

  /** A string schema accepts exactly the strings of its pattern, of a length in its range, and among its pins. */
  lemma AcceptedStrings(lex: Lexicon, v: Json, s: Schema)
    requires s.Schema? && NoUnion(s) && s.typ == Is(TString)
    ensures Accepts(lex, v, s) <==>
              && v.Str?
              && (s.pattern.Is? ==> lex.fullMatch(s.pattern.value, v.s))
              && (s.minLength.Is? ==> s.minLength.value <= |v.s|)
              && (s.maxLength.Is? ==> |v.s| <= s.maxLength.value)
              && (s.constant.Some? ==> s.constant.value == v)
              && (!s.enumeration.Absent? ==> s.enumeration.Is? && v in s.enumeration.value)
  {
    if v.Str? && s.enumeration.Is? && v in s.enumeration.value {
      var i :| 0 <= i < |s.enumeration.value| && s.enumeration.value[i] == v;
      assert PyEqual(v, s.enumeration.value[i]);
    }
  }

  /** A null schema looks at no other keyword. */
  lemma AcceptedNulls(lex: Lexicon, v: Json, s: Schema)
    requires s.Schema? && NoUnion(s) && s.typ == Is(TNull)
    ensures Accepts(lex, v, s) <==> v == Null
  {
  }

  // ---- containers ----

  /** The empty schema, which stands in for missing `items`, refuses infinities and NaN and nothing else. */
  lemma AcceptedByEmpty(lex: Lexicon, v: Json)
    ensures Accepts(lex, v, EMPTY) <==> !(v.Float? && !v.f.Finite?)
    ensures Accepts(lex, v, EMPTY) <==> AcceptedUntyped(v)
  {
  }

  /** A `type` that is no type name is refused. */
  lemma UnknownTypesAcceptNothing(lex: Lexicon, v: Json, s: Schema)
    requires s.Schema? && NoUnion(s) && s.typ.Malformed?
    ensures !Accepts(lex, v, s)
  {
  }

  /** An array schema accepts exactly the arrays of a length in its range whose items its item schema accepts. */
  lemma AcceptedArrays(lex: Lexicon, v: Json, s: Schema)
    requires s.Schema? && NoUnion(s) && s.typ == Is(TArray)
    ensures Accepts(lex, v, s) <==>
              && v.Arr? && !s.items.Malformed?
              && (s.minItems.Is? ==> s.minItems.value <= |v.items|)
              && (s.maxItems.Is? ==> |v.items| <= s.maxItems.value)
              && forall item | item in v.items :: Accepts(lex, item, if s.items.Is? then s.items.value else EMPTY)
  {
    if v.Arr? {
      forall i | 0 <= i < |v.items| ensures v.items[i] in v.items {
      }
      forall item ensures Accepts(lex, item, EMPTY) <==> AcceptedUntyped(item) {
        AcceptedByEmpty(lex, item);
      }
    }
  }

  /** The schema that governs a field: the declared one, the one for extra fields, or none at all. */
  predicate FieldIsAccepted(lex: Lexicon, f: Field, s: Schema)
    requires s.Schema?
  {
    if exists p :: p in PropertyList(s) && p.name == f.key then
      forall p | p in PropertyList(s) && p.name == f.key :: Accepts(lex, f.value, p.schema)
    else
      match s.additional
      case Typed(extra) => Accepts(lex, f.value, extra)
      case NoAdditional => false
      case Flag(allowed) => allowed
      case BadAdditional => true
  }

  /**
   An object schema accepts exactly the objects that are not too large, have every required field, and hold under every
   key an accepted name and a value accepted by the schema that governs it.
   */
  lemma AcceptedObjects(lex: Lexicon, v: Json, s: Schema)
    requires s.Schema? && NoUnion(s) && s.typ == Is(TObject)
    ensures Accepts(lex, v, s) <==>
              && v.Obj? && !s.properties.BadProperties?
              && (s.maxProperties.Is? ==> |v.fields| <= s.maxProperties.value)
              && (s.required.Is? ==> forall r | r in s.required.value :: exists f :: f in v.fields && f.key == r)
              && (forall f | f in v.fields :: FieldIsAccepted(lex, f, s))
              && (s.propertyNames.Is? ==>
                    forall f | f in v.fields :: Accepts(lex, Str(f.key), s.propertyNames.value))
  {
    if v.Obj? && !s.properties.BadProperties? {
      ObjectIsFieldwise(lex, v.fields, s);
      FieldsAreAccepted(lex, v.fields, s);
      RequiredAreHeld(v.fields, ListOf(s.required));
      NamesAreAccepted(lex, v.fields, s);
    }
  }

  lemma RequiredAreHeld(fields: seq<Field>, required: seq<string>)
    ensures (forall r | r in required :: HasKey(fields, r)) <==>
              forall r | r in required :: exists f :: f in fields && f.key == r
  {
    forall r ensures HasKey(fields, r) <==> exists f :: f in fields && f.key == r {
      if i :| 0 <= i < |fields| && fields[i].key == r {
        assert fields[i] in fields;
      }
    }
  }

  lemma NamesAreAccepted(lex: Lexicon, fields: seq<Field>, s: Schema)
    requires s.Schema?
    ensures s.propertyNames.Is? ==>
              ((forall i | 0 <= i < |fields| :: Accepts(lex, Str(fields[i].key), s.propertyNames.value)) <==>
               (forall f | f in fields :: Accepts(lex, Str(f.key), s.propertyNames.value)))
  {
    forall i | 0 <= i < |fields| ensures fields[i] in fields {
    }
  }

  lemma ObjectIsFieldwise(lex: Lexicon, fields: seq<Field>, s: Schema)
    requires s.Schema?
    ensures AcceptsObject(lex, fields, s) <==> AcceptsFieldwise(lex, fields, s)
  {
    if AcceptsFieldwise(lex, fields, s) {
      forall i | 0 <= i < |fields| ensures FieldAccepted(lex, fields[i], s) {
      }
    }
  }

  /** The object branch with the two checks on a field's value taken together. */
  ghost predicate AcceptsFieldwise(lex: Lexicon, fields: seq<Field>, s: Schema)
    requires s.Schema?
  {
    && (s.maxProperties.Is? ==> |fields| <= s.maxProperties.value)
    && (forall r | r in ListOf(s.required) :: HasKey(fields, r))
    && !s.properties.BadProperties?
    && (ForbidsUndeclared(s) ==> forall i | 0 <= i < |fields| :: Declares(PropertyList(s), fields[i].key))
    && (s.propertyNames.Is? ==> forall i | 0 <= i < |fields| :: Accepts(lex, Str(fields[i].key), s.propertyNames.value))
    && (forall i | 0 <= i < |fields| :: FieldAccepted(lex, fields[i], s))
  }

  lemma FieldsAreAccepted(lex: Lexicon, fields: seq<Field>, s: Schema)
    requires s.Schema? && !s.properties.BadProperties?
    ensures (forall f | f in fields :: FieldIsAccepted(lex, f, s)) <==>
              && (ForbidsUndeclared(s) ==> forall i | 0 <= i < |fields| :: Declares(PropertyList(s), fields[i].key))
              && (forall i | 0 <= i < |fields| :: FieldAccepted(lex, fields[i], s))
  {
    forall f | f in fields
      ensures FieldIsAccepted(lex, f, s) <==>
                (ForbidsUndeclared(s) ==> Declares(PropertyList(s), f.key)) && FieldAccepted(lex, f, s)
    {
      DeclaredName(PropertyList(s), f.key);
      forall p | p in PropertyList(s) && p.name == f.key && FieldAccepted(lex, f, s)
        ensures Accepts(lex, f.value, p.schema)
      {
        var j :| 0 <= j < |PropertyList(s)| && PropertyList(s)[j] == p;
      }
      forall j | 0 <= j < |PropertyList(s)|
        ensures PropertyList(s)[j] in PropertyList(s)
      {
      }
    }
  }

  // ---- unions ----

  lemma {:induction false} NoneCounts(lex: Lexicon, v: Json, branches: seq<Schema>)
    ensures AcceptCount(lex, v, branches) == 0 <==> forall i | 0 <= i < |branches| :: !Accepts(lex, v, branches[i])
  {
    if branches == [] {
    } else {
      NoneCounts(lex, v, branches[..|branches| - 1]);
    }
  }

  lemma {:induction false} OneCounts(lex: Lexicon, v: Json, branches: seq<Schema>)
    ensures AcceptCount(lex, v, branches) == 1 <==> exists i :: OnlyBranch(lex, v, branches, i)
  {
    if branches == [] {
    } else {
      var front, last := branches[..|branches| - 1], |branches| - 1;
      OneCounts(lex, v, front);
      NoneCounts(lex, v, front);
      if i :| OnlyBranch(lex, v, front, i) && !Accepts(lex, v, branches[last]) {
        assert OnlyBranch(lex, v, branches, i);
      }
      if i :| OnlyBranch(lex, v, branches, i) {
        OnlyInFront(lex, v, branches, i);
      }
      if Accepts(lex, v, branches[last]) && AcceptCount(lex, v, front) == 0 {
        forall k | 0 <= k < last ensures !Accepts(lex, v, branches[k]) {
          assert !Accepts(lex, v, front[k]);
        }
        assert OnlyBranch(lex, v, branches, last);
      }
    }
  }

  lemma OnlyInFront(lex: Lexicon, v: Json, branches: seq<Schema>, i: int)
    requires OnlyBranch(lex, v, branches, i)
    ensures var front, last := branches[..|branches| - 1], |branches| - 1;
            if i < last then OnlyBranch(lex, v, front, i) && !Accepts(lex, v, branches[last])
            else i == last && forall k | 0 <= k < last :: !Accepts(lex, v, front[k])
  {
  }

  /** The branch accepts the value and no other does. */
  ghost predicate OnlyBranch(lex: Lexicon, v: Json, branches: seq<Schema>, i: int) {
    && 0 <= i < |branches| && Accepts(lex, v, branches[i])
    && forall k | 0 <= k < |branches| && k != i :: !Accepts(lex, v, branches[k])
  }

  /** `oneOf` accepts what exactly one branch accepts. */
  lemma AcceptedByOneOf(lex: Lexicon, v: Json, s: Schema)
    requires s.Schema? && s.oneOf.Branches? && s.oneOf.list != []
    ensures Accepts(lex, v, s) <==> exists i :: OnlyBranch(lex, v, s.oneOf.list, i)
  {
    OneCounts(lex, v, s.oneOf.list);
  }

  /** `anyOf` accepts what some branch accepts. */
  lemma AcceptedByAnyOf(lex: Lexicon, v: Json, s: Schema)
    requires s.Schema? && s.oneOf.NoBranches? && s.anyOf.Branches?
    ensures Accepts(lex, v, s) <==> exists branch :: branch in s.anyOf.list && Accepts(lex, v, branch)
  {
    NoneCounts(lex, v, s.anyOf.list);
    if i :| 0 <= i < |s.anyOf.list| && Accepts(lex, v, s.anyOf.list[i]) {
      assert s.anyOf.list[i] in s.anyOf.list;
    }
  }
}
