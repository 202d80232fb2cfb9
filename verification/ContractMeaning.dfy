/** What the contract checker admits, type by type, and how large an admitted schema can be. */
module ContractMeaning {
  import opened Json
  import opened Wrappers
  import opened SchemaContract

  /** No keyword of a container. */
  predicate NoContainerKeywords(s: Schema)
    requires s.Schema?
  {
    && s.properties == NoProperties && s.required == Absent && s.additional == NoAdditional
    && s.maxProperties == Absent && s.propertyNames == Absent
    && s.items == Absent && s.minItems == Absent && s.maxItems == Absent
  }

  /** A typed node that is not a union: known keywords only, at a depth of at most eight, briefly described. */
  predicate PlainNode(s: Schema, t: TypeName, depth: nat) {
    && s.Schema? && !s.foreignKeys && s.typ == Is(t) && depth <= 8
    && s.oneOf == NoBranches && s.anyOf == NoBranches
    && match s.description case Absent => true case Is(text) => |text| <= 240 case Malformed => false
  }

  /** The pins are of the type, at most 512, each once, and the constant is one of them. */
  ghost predicate TypedPins(s: Schema, t: TypeName)
    requires s.Schema?
  {
    && (s.constant.Some? ==> ScalarMatchesType(s.constant.value, t))
    && match s.enumeration
       case Absent => true
       case Malformed => false
       case Is(values) =>
         && 0 < |values| <= 512
         && (forall i | 0 <= i < |values| :: ScalarMatchesType(values[i], t) && values[i] !in values[..i])
         && (s.constant.Some? ==> exists i | 0 <= i < |values| :: PyEqual(s.constant.value, values[i]))
  }

  predicate NoRange(s: Schema)
    requires s.Schema?
  {
    s.minimum == Absent && s.maximum == Absent
  }

  predicate NoText(s: Schema)
    requires s.Schema?
  {
    s.minLength == Absent && s.maxLength == Absent && s.pattern == Absent
  }

  predicate OrderedRange(s: Schema)
    requires s.Schema?
  {
    match (s.minimum, s.maximum)
    case (Malformed, _) => false
    case (_, Malformed) => false
    case (Is(low), Is(high)) => low <= high
    case (_, _) => true
  }

  /** Lengths that are not negative and not crossed, and a pattern of at most 240 characters that compiles. */
  predicate OrderedText(lex: Lexicon, s: Schema)
    requires s.Schema?
  {
    && (match (s.minLength, s.maxLength)
        case (Malformed, _) => false
        case (_, Malformed) => false
        case (Is(low), Is(high)) => 0 <= low <= high
        case (Is(low), _) => low >= 0
        case (_, Is(high)) => high >= 0
        case (_, _) => true)
    && match s.pattern case Absent => true case Malformed => false case Is(p) => |p| <= 240 && lex.compiles(p)
  }

  lemma PinsAreTyped(s: Schema, t: TypeName)
    requires s.Schema?
    ensures TypedPins(s, t) <==>
              && !s.enumeration.Malformed?
              && (s.enumeration.Is? ==>
                    && 1 <= |s.enumeration.value| <= 512
                    && (forall v | v in s.enumeration.value :: ScalarMatchesType(v, t))
                    && NoDuplicates(s.enumeration.value))
              && (s.constant.Some? ==> ScalarMatchesType(s.constant.value, t))
              && (s.enumeration.Is? && s.constant.Some? ==> PyMember(s.constant.value, s.enumeration.value))
  {
    if s.enumeration.Is? {
      var values := s.enumeration.value;
      forall i | 0 <= i < |values| ensures values[i] in values {
      }
      if forall i | 0 <= i < |values| :: values[i] !in values[..i] {
        forall i, j | 0 <= i < j < |values| ensures values[i] != values[j] {
          assert values[..j][i] == values[i];
        }
      }
    }
  }

  /** Which scalar schemas are admitted: numbers have a range, strings have lengths and a pattern, all have pins. */
  lemma AdmittedScalars(lex: Lexicon, s: Schema, t: TypeName, depth: nat)
    requires s.Schema? && s.typ == Is(t) && t != TObject && t != TArray
    requires s.oneOf == NoBranches && s.anyOf == NoBranches
    ensures WellFormed(lex, s, false, depth) <==>
              && PlainNode(s, t, depth) && NoContainerKeywords(s) && TypedPins(s, t)
              && (if t == TInteger || t == TNumber then OrderedRange(s) else NoRange(s))
              && (if t == TString then OrderedText(lex, s) else NoText(s))
  {
    PinsAreTyped(s, t);
  }

  /** Which array schemas are admitted: items are described, bounded by at most 512, and the bounds are not crossed. */
  lemma AdmittedArrays(lex: Lexicon, s: Schema, depth: nat)
    requires s.Schema? && s.typ == Is(TArray) && s.oneOf == NoBranches && s.anyOf == NoBranches
    ensures WellFormed(lex, s, false, depth) <==>
              && PlainNode(s, TArray, depth)
              && s.properties == NoProperties && s.required == Absent && s.additional == NoAdditional
              && s.maxProperties == Absent && s.propertyNames == Absent
              && s.items.Is? && WellFormed(lex, s.items.value, false, depth + 1)
              && s.maxItems.Is? && 0 <= s.maxItems.value <= 512
              && match s.minItems case Absent => true case Malformed => false case Is(n) => 0 <= n <= s.maxItems.value
  {
  }

  /** Extra fields are forbidden, or typed, bounded in number and of names a bounded string schema accepts. */
  predicate ExtrasAreBounded(lex: Lexicon, s: Schema, depth: nat)
    requires s.Schema?
  {
    match s.additional
    case NoAdditional => s.propertyNames == Absent
    case Flag(allowed) => !allowed && s.propertyNames == Absent
    case BadAdditional => false
    case Typed(extra) =>
      && WellFormed(lex, extra, false, depth + 1)
      && s.maxProperties.Is?
      && s.propertyNames.Is? && WellFormed(lex, s.propertyNames.value, false, depth + 1)
      && s.propertyNames.value.typ == Is(TString) && s.propertyNames.value.maxLength.Is?
  }

  /** At most 128 declared properties, each once, named in public and with an admitted schema of its own. */
  ghost predicate PropertiesAreAdmitted(lex: Lexicon, s: Schema, depth: nat)
    requires s.Schema?
  {
    && !s.properties.BadProperties?
    && var declared := PropertyList(s);
       && |declared| <= 128
       && (forall i, j | 0 <= i < j < |declared| :: declared[i].name != declared[j].name)
       && forall p | p in declared ::
            p.name != "" && !lex.privateName(p.name) && WellFormed(lex, p.schema, false, depth + 1)
  }

  /** The required names are declared, each once, and fit into the number of fields allowed. */
  ghost predicate RequiredIsDeclared(s: Schema)
    requires s.Schema?
  {
    && !s.required.Malformed? && !s.maxProperties.Malformed?
    && var required := ListOf(s.required);
       && (forall i, j | 0 <= i < j < |required| :: required[i] != required[j])
       && (forall r | r in required :: exists p :: p in PropertyList(s) && p.name == r)
       && (s.maxProperties.Is? ==> |required| <= s.maxProperties.value <= 128)
  }

  /** Which object schemas are admitted. */
  lemma AdmittedObjects(lex: Lexicon, s: Schema, depth: nat)
    requires s.Schema? && s.typ == Is(TObject) && s.oneOf == NoBranches && s.anyOf == NoBranches
    ensures WellFormed(lex, s, false, depth) <==>
              && PlainNode(s, TObject, depth)
              && PropertiesAreAdmitted(lex, s, depth) && RequiredIsDeclared(s) && ExtrasAreBounded(lex, s, depth)
  {
    ObjectIsAdmitted(lex, s, depth);
    assert WellFormed(lex, s, false, depth) <==> PlainNode(s, TObject, depth) && WellFormedObject(lex, s, depth);
  }

  lemma ObjectIsAdmitted(lex: Lexicon, s: Schema, depth: nat)
    requires s.Schema? && s.typ == Is(TObject)
    ensures WellFormedObject(lex, s, depth) <==>
              PropertiesAreAdmitted(lex, s, depth) && RequiredIsDeclared(s) && ExtrasAreBounded(lex, s, depth)
  {
    forall name ensures Declares(PropertyList(s), name) <==> exists p :: p in PropertyList(s) && p.name == name {
      DeclaredName(PropertyList(s), name);
    }
    forall i | 0 <= i < |PropertyList(s)| ensures PropertyList(s)[i] in PropertyList(s) {
    }
    if s.propertyNames.Is? && WellFormed(lex, s.propertyNames.value, false, depth + 1)
       && s.propertyNames.value.typ == Is(TString)
    {
      NamesAreBounded(lex, s.propertyNames.value, depth + 1);
    }
  }

  /** An admitted string schema has a proper maximum length or none. */
  lemma NamesAreBounded(lex: Lexicon, names: Schema, depth: nat)
    requires WellFormed(lex, names, false, depth) && names.typ == Is(TString)
    ensures names.maxLength.Absent? || names.maxLength.Is?
  {
  }

  /** Which unions are admitted: one to 128 admitted branches and no other keyword; the branches of `oneOf` distinct. */
  lemma AdmittedUnions(lex: Lexicon, s: Schema, root: bool, depth: nat)
    requires s.Schema? && !(s.oneOf == NoBranches && s.anyOf == NoBranches)
    ensures WellFormed(lex, s, root, depth) <==>
              && depth <= 8 && !s.foreignKeys && (s.oneOf == NoBranches || s.anyOf == NoBranches)
              && s.typ == (if root then Is(TObject) else Absent)
              && NoContainerKeywords(s) && NoRange(s) && NoText(s) && s.enumeration == Absent && s.constant == None
              && var branches := if s.oneOf != NoBranches then s.oneOf else s.anyOf;
                 && branches.Branches? && 0 < |branches.list| <= 128
                 && (forall b | b in branches.list :: WellFormed(lex, b, root, depth + 1))
                 && (s.oneOf != NoBranches && |branches.list| > 1 ==> DistinctBranches(branches.list))
  {
    if s.oneOf.Branches? {
      forall i | 0 <= i < |s.oneOf.list| ensures s.oneOf.list[i] in s.oneOf.list {
      }
    }
    if s.anyOf.Branches? {
      forall i | 0 <= i < |s.anyOf.list| ensures s.anyOf.list[i] in s.anyOf.list {
      }
    }
  }

  // ---- what tells the branches of `oneOf` apart ----

  /** The constant, or an enumerated value where there is no constant. */
  ghost predicate IsPin(child: Schema, v: Json) {
    child.Schema? && match child.constant
                     case Some(c) => v == c
                     case None => child.enumeration.Is? && v in child.enumeration.value
  }

  /** A required, declared field of an object branch with some pinned value. */
  ghost predicate PinnedField(s: Schema, p: Property) {
    && s.Schema? && s.typ == Is(TObject)
    && p in PropertyList(s) && s.required.Is? && p.name in s.required.value
    && exists v :: IsPin(p.schema, v)
  }

  lemma PinsAreFinite(child: Schema)
    ensures forall v :: v in FiniteValues(child) <==> IsPin(child, v)
    ensures FiniteValues(child) != {} <==> exists v :: IsPin(child, v)
  {
    if FiniteValues(child) != {} {
      var v :| v in FiniteValues(child);
      assert IsPin(child, v);
    }
    if v :| IsPin(child, v) {
      assert v in FiniteValues(child);
    }
  }

  lemma {:induction false} DiscriminantsAre(properties: seq<Property>, required: seq<string>, p: Property)
    requires UniqueNames(properties) && p in properties
    ensures p.name in DiscriminantsOf(properties, required) <==> p.name in required && FiniteValues(p.schema) != {}
    ensures p.name in DiscriminantsOf(properties, required) ==>
              DiscriminantsOf(properties, required)[p.name] == FiniteValues(p.schema)
  {
    var front, last := properties[..|properties| - 1], properties[|properties| - 1];
    if p in front {
      DiscriminantsAre(front, required, p);
      var i :| 0 <= i < |front| && front[i] == p;
      assert properties[i].name != last.name;
    } else {
      assert p == last;
      NoDiscriminant(front, required, p.name);
    }
  }

  lemma {:induction false} NoDiscriminant(properties: seq<Property>, required: seq<string>, name: string)
    requires forall i | 0 <= i < |properties| :: properties[i].name != name
    ensures name !in DiscriminantsOf(properties, required)
  {
    if properties == [] {
    } else {
      NoDiscriminant(properties[..|properties| - 1], required, name);
    }
  }

  /** A branch's discriminants are its pinned fields. */
  lemma FieldsArePinned(s: Schema, name: string)
    requires s.Schema? ==> UniqueNames(PropertyList(s))
    ensures name in FiniteDiscriminants(s) <==> exists p :: PinnedField(s, p) && p.name == name
    ensures forall p | PinnedField(s, p) && p.name == name ::
              name in FiniteDiscriminants(s) && FiniteDiscriminants(s)[name] == FiniteValues(p.schema)
  {
    if s.Schema? && s.typ == Is(TObject) && s.properties.Properties? {
      forall p | p in PropertyList(s) && p.name == name
        ensures name in FiniteDiscriminants(s) <==> PinnedField(s, p)
        ensures name in FiniteDiscriminants(s) ==> FiniteDiscriminants(s)[name] == FiniteValues(p.schema)
      {
        DiscriminantsAre(PropertyList(s), ListOf(s.required), p);
        PinsAreFinite(p.schema);
      }
      if !Declares(PropertyList(s), name) {
        NoDiscriminant(PropertyList(s), ListOf(s.required), name);
      }
      DeclaredName(PropertyList(s), name);
    }
  }

  /** Both branches pin a field of the name, to values they do not share. */
  ghost predicate ToldApart(a: Schema, b: Schema, name: string) {
    exists p, q :: PinnedField(a, p) && PinnedField(b, q) && p.name == name && q.name == name
                   && forall v :: !(IsPin(p.schema, v) && IsPin(q.schema, v))
  }

  ghost predicate SomeFieldTellsApart(a: Schema, b: Schema) {
    exists name :: ToldApart(a, b, name)
  }

  ghost predicate PinsSomeField(s: Schema) {
    exists p :: PinnedField(s, p)
  }

  lemma NameTellsApart(a: Schema, b: Schema, name: string)
    requires (a.Schema? ==> UniqueNames(PropertyList(a))) && (b.Schema? ==> UniqueNames(PropertyList(b)))
    ensures var left, right := FiniteDiscriminants(a), FiniteDiscriminants(b);
            ToldApart(a, b, name) <==> name in left && name in right && left[name] !! right[name]
  {
    var left, right := FiniteDiscriminants(a), FiniteDiscriminants(b);
    FieldsArePinned(a, name);
    FieldsArePinned(b, name);
    if name in left && name in right && left[name] !! right[name] {
      var p :| PinnedField(a, p) && p.name == name;
      var q :| PinnedField(b, q) && q.name == name;
      PinsAreFinite(p.schema);
      PinsAreFinite(q.schema);
    }
    if ToldApart(a, b, name) {
      var p, q :| PinnedField(a, p) && PinnedField(b, q) && p.name == name && q.name == name
                  && forall v :: !(IsPin(p.schema, v) && IsPin(q.schema, v));
      PinsAreFinite(p.schema);
      PinsAreFinite(q.schema);
    }
  }

  lemma DisjointIsToldApart(a: Schema, b: Schema)
    requires (a.Schema? ==> UniqueNames(PropertyList(a))) && (b.Schema? ==> UniqueNames(PropertyList(b)))
    ensures BranchesAreDisjoint(FiniteDiscriminants(a), FiniteDiscriminants(b)) <==> SomeFieldTellsApart(a, b)
  {
    var left, right := FiniteDiscriminants(a), FiniteDiscriminants(b);
    if name :| name in left.Keys && name in right.Keys && left[name] !! right[name] {
      NameTellsApart(a, b, name);
    }
    if name :| ToldApart(a, b, name) {
      NameTellsApart(a, b, name);
      assert name in left.Keys;
    }
  }

  /** The branches are distinct when each pins some field, and every two of them one field to different values. */
  lemma DistinctBranchesAre(branches: seq<Schema>)
    requires forall i | 0 <= i < |branches| :: branches[i].Schema? ==> UniqueNames(PropertyList(branches[i]))
    ensures DistinctBranches(branches) <==>
              && (forall i | 0 <= i < |branches| :: PinsSomeField(branches[i]))
              && forall i, j | 0 <= i < j < |branches| :: SomeFieldTellsApart(branches[i], branches[j])
  {
    forall i | 0 <= i < |branches| ensures FiniteDiscriminants(branches[i]) != map[] <==> PinsSomeField(branches[i]) {
      SomeDiscriminant(branches[i]);
    }
    forall i, j | 0 <= i < j < |branches|
      ensures BranchesAreDisjoint(FiniteDiscriminants(branches[i]), FiniteDiscriminants(branches[j])) <==>
                SomeFieldTellsApart(branches[i], branches[j])
    {
      DisjointIsToldApart(branches[i], branches[j]);
    }
  }

  lemma SomeDiscriminant(s: Schema)
    requires s.Schema? ==> UniqueNames(PropertyList(s))
    ensures FiniteDiscriminants(s) != map[] <==> PinsSomeField(s)
  {
    if FiniteDiscriminants(s) != map[] {
      var name :| name in FiniteDiscriminants(s);
      FieldsArePinned(s, name);
    }
    if p :| PinnedField(s, p) {
      FieldsArePinned(s, p.name);
    }
  }

  /** At the root only an object is admitted; otherwise the root is a node like any other. */
  lemma RootsAreObjects(lex: Lexicon, s: Schema, depth: nat)
    requires s.Schema? && s.oneOf == NoBranches && s.anyOf == NoBranches
    ensures WellFormed(lex, s, true, depth) <==> WellFormed(lex, s, false, depth) && s.typ == Is(TObject)
  {
  }
}
