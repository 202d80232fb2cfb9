/**
 What the contract checker's finite discriminants buy: when the pinned values of two `oneOf` branches are
 apart for Python's `==`, no value satisfies both branches.
 */
module OneOfExclusivity {
  import opened Json
  import opened Wrappers
  import opened SchemaContract
  import opened SchemaValidation

  predicate ScalarType(t: TypeName) {
    t != TObject && t != TArray
  }

  /** Two pinned values no single JSON value can equal. True is never accepted where a number is declared. */
  predicate Apart(a: Json, b: Json) {
    !(PyEqual(a, b) && (a.Bool? <==> b.Bool?))
  }

  predicate PinsApart(left: Schema, right: Schema) {
    && left.Schema? && right.Schema?
    && left.typ.Is? && ScalarType(left.typ.value) && right.typ.Is? && ScalarType(right.typ.value)
    && forall a, b | a in FiniteValues(left) && b in FiniteValues(right) :: Apart(a, b)
  }

  /** Some field is required and pinned by both branches, to values that are apart. */
  ghost predicate Separated(left: Schema, right: Schema) {
    && left.Schema? && right.Schema?
    && exists i, j ::
         && 0 <= i < |PropertyList(left)| && 0 <= j < |PropertyList(right)|
         && SeparatingField(left, right, PropertyList(left)[i], PropertyList(right)[j])
  }

  ghost predicate SeparatingField(left: Schema, right: Schema, p: Property, q: Property)
    requires left.Schema? && right.Schema?
  {
    && p.name == q.name && p.name in ListOf(left.required) && q.name in ListOf(right.required)
    && FiniteValues(p.schema) != {} && FiniteValues(q.schema) != {}
    && PinsApart(p.schema, q.schema)
  }

  /** A value accepted by a pinned scalar schema equals one of its pins, up to 1 and 1.0. */
  lemma AcceptedEqualsPin(lex: Lexicon, v: Json, child: Schema, depth: nat) returns (pin: Json)
    requires WellFormed(lex, child, false, depth)
    requires child.typ.Is? && ScalarType(child.typ.value) && FiniteValues(child) != {}
    requires Accepts(lex, v, child)
    ensures pin in FiniteValues(child) && PyEqual(v, pin) && (v.Bool? <==> pin.Bool?)
  {
    if child.constant.Some? {
      pin := child.constant.value;
    } else {
      if child.typ.value == TNull {
        pin := child.enumeration.value[0];
      } else {
        var i :| 0 <= i < |child.enumeration.value| && PyEqual(v, child.enumeration.value[i]);
        pin := child.enumeration.value[i];
      }
      assert pin in child.enumeration.value;
    }
  }

  lemma PyEqualMeets(a: Json, v: Json, b: Json)
    requires PyEqual(v, a) && PyEqual(v, b) && (v.Bool? <==> a.Bool?) && (v.Bool? <==> b.Bool?)
    ensures !Apart(a, b)
  {
  }

  /** An accepted object carries every required field, with a value its declared schema accepts. */
  lemma RequiredFieldIsAccepted(lex: Lexicon, v: Json, s: Schema, i: nat, root: bool, depth: nat)
    requires WellFormed(lex, s, root, depth) && s.typ == Is(TObject)
    requires i < |PropertyList(s)| && PropertyList(s)[i].name in ListOf(s.required)
    requires Accepts(lex, v, s)
    ensures v.Obj? && HasKey(v.fields, s.properties.list[i].name)
    ensures WellFormed(lex, s.properties.list[i].schema, false, depth + 1)
    ensures forall k | 0 <= k < |v.fields| && v.fields[k].key == s.properties.list[i].name ::
              Accepts(lex, v.fields[k].value, s.properties.list[i].schema)
  {
    assert WellFormedObject(lex, s, depth);
    assert AcceptsObject(lex, v.fields, s);
  }

  /** Apart pins make two branches exclusive. */
  lemma SeparatedBranchesExclude(lex: Lexicon, v: Json, left: Schema, right: Schema, root: bool, depth: nat)
    requires WellFormed(lex, left, root, depth) && WellFormed(lex, right, root, depth)
    requires left.typ == Is(TObject) && right.typ == Is(TObject)
    requires Separated(left, right)
    ensures !(Accepts(lex, v, left) && Accepts(lex, v, right))
  {
    if Accepts(lex, v, left) && Accepts(lex, v, right) {
      var i, j :| && 0 <= i < |PropertyList(left)| && 0 <= j < |PropertyList(right)|
                  && SeparatingField(left, right, PropertyList(left)[i], PropertyList(right)[j]);
      RequiredFieldIsAccepted(lex, v, left, i, root, depth);
      RequiredFieldIsAccepted(lex, v, right, j, root, depth);
      var k :| 0 <= k < |v.fields| && v.fields[k].key == PropertyList(left)[i].name;
      PinnedValuesExclude(lex, v.fields[k].value, left.properties.list[i].schema, right.properties.list[j].schema,
                          depth + 1);
    }
  }

  lemma PinnedValuesExclude(lex: Lexicon, x: Json, left: Schema, right: Schema, depth: nat)
    requires WellFormed(lex, left, false, depth) && WellFormed(lex, right, false, depth)
    requires FiniteValues(left) != {} && FiniteValues(right) != {} && PinsApart(left, right)
    ensures !(Accepts(lex, x, left) && Accepts(lex, x, right))
  {
    if Accepts(lex, x, left) && Accepts(lex, x, right) {
      var a := AcceptedEqualsPin(lex, x, left, depth);
      var b := AcceptedEqualsPin(lex, x, right, depth);
      PyEqualMeets(a, x, b);
    }
  }

  /** What a discriminant entry says about the declared property of that name. */
  lemma {:induction false} DiscriminantProperty(properties: seq<Property>, required: seq<string>, name: string)
    returns (i: nat)
    requires name in DiscriminantsOf(properties, required)
    ensures i < |properties| && properties[i].name == name && name in required
    ensures FiniteValues(properties[i].schema) == DiscriminantsOf(properties, required)[name] != {}
  {
    var last := |properties| - 1;
    var p := properties[last];
    if p.name == name && name in required && FiniteValues(p.schema) != {} {
      i := last;
    } else {
      i := DiscriminantProperty(properties[..last], required, name);
    }
  }

  ghost predicate ExactType(t: TypeName) {
    t == TString || t == TBoolean || t == TInteger || t == TNull
  }

  /** Some field told apart by the contract checker is declared string, boolean, integer or null in both branches. */
  ghost predicate ExactlyDiscriminated(left: Schema, right: Schema) {
    && left.Schema? && right.Schema?
    && exists name ::
         && name in FiniteDiscriminants(left) && name in FiniteDiscriminants(right)
         && FiniteDiscriminants(left)[name] !! FiniteDiscriminants(right)[name]
         && DeclaredExactly(left, name) && DeclaredExactly(right, name)
  }

  ghost predicate DeclaredExactly(s: Schema, name: string)
    requires s.Schema?
  {
    forall i | 0 <= i < |PropertyList(s)| && PropertyList(s)[i].name == name ::
      var child := PropertyList(s)[i].schema; child.Schema? && child.typ.Is? && ExactType(child.typ.value)
  }

  /** For those four types the contract checker's textual identities and Python's `==` separate the same values. */
  lemma ExactDiscriminantsSeparate(lex: Lexicon, left: Schema, right: Schema, root: bool, depth: nat)
    requires WellFormed(lex, left, root, depth) && WellFormed(lex, right, root, depth)
    requires left.typ == Is(TObject) && right.typ == Is(TObject)
    requires ExactlyDiscriminated(left, right)
    ensures Separated(left, right)
  {
    var name :| && name in FiniteDiscriminants(left) && name in FiniteDiscriminants(right)
                && FiniteDiscriminants(left)[name] !! FiniteDiscriminants(right)[name]
                && DeclaredExactly(left, name) && DeclaredExactly(right, name);
    var i := DiscriminantProperty(PropertyList(left), ListOf(left.required), name);
    var j := DiscriminantProperty(PropertyList(right), ListOf(right.required), name);
    var p, q := left.properties.list[i], right.properties.list[j];
    DeclaredPropertyIsWellFormed(lex, left, i, root, depth);
    DeclaredPropertyIsWellFormed(lex, right, j, root, depth);
    DisjointExactPinsAreApart(lex, p.schema, q.schema, depth + 1);
    assert SeparatingField(left, right, PropertyList(left)[i], PropertyList(right)[j]);
  }

  lemma DeclaredPropertyIsWellFormed(lex: Lexicon, s: Schema, i: nat, root: bool, depth: nat)
    requires WellFormed(lex, s, root, depth) && s.typ == Is(TObject) && i < |PropertyList(s)|
    ensures WellFormed(lex, s.properties.list[i].schema, false, depth + 1)
  {
    assert WellFormedObject(lex, s, depth);
  }

  lemma DisjointExactPinsAreApart(lex: Lexicon, left: Schema, right: Schema, depth: nat)
    requires WellFormed(lex, left, false, depth) && WellFormed(lex, right, false, depth)
    requires left.typ.Is? && ExactType(left.typ.value) && right.typ.Is? && ExactType(right.typ.value)
    requires FiniteValues(left) !! FiniteValues(right)
    ensures PinsApart(left, right)
  {
    forall a, b | a in FiniteValues(left) && b in FiniteValues(right)
      ensures Apart(a, b)
    {
      PinHasDeclaredType(lex, left, a, depth);
      PinHasDeclaredType(lex, right, b, depth);
      assert a != b;
    }
  }

  lemma PinHasDeclaredType(lex: Lexicon, child: Schema, pin: Json, depth: nat)
    requires WellFormed(lex, child, false, depth) && child.typ.Is? && ScalarType(child.typ.value)
    requires pin in FiniteValues(child)
    ensures ScalarMatchesType(pin, child.typ.value)
  {
  }

  ghost predicate BothAccept(lex: Lexicon, v: Json, left: Schema, right: Schema) {
    Accepts(lex, v, left) && Accepts(lex, v, right)
  }

  /** At most one of pairwise exclusive branches accepts a value. */
  lemma {:induction false} AtMostOneAccepts(lex: Lexicon, v: Json, branches: seq<Schema>)
    requires forall i, j | 0 <= i < j < |branches| :: !BothAccept(lex, v, branches[i], branches[j])
    ensures AcceptCount(lex, v, branches) <= 1
    ensures AcceptCount(lex, v, branches) == 0 <==> forall i | 0 <= i < |branches| :: !Accepts(lex, v, branches[i])
  {
    if branches == [] {
    } else {
      var last := |branches| - 1;
      var front := branches[..last];
      AtMostOneAccepts(lex, v, front);
      if Accepts(lex, v, branches[last]) {
        forall i | 0 <= i < last
          ensures !Accepts(lex, v, front[i])
        {
          assert !BothAccept(lex, v, branches[i], branches[last]);
        }
      }
    }
  }

  /** The same node with its `oneOf` branches offered as `anyOf`. */
  function AsAnyOf(s: Schema): Schema
    requires s.Schema?
  {
    s.(oneOf := NoBranches, anyOf := s.oneOf)
  }

  /**
   An admitted `oneOf` of two or more branches is exclusive, and so means what `anyOf` means, whenever the
   fields that tell its branches apart are declared string, boolean, integer or null.
   */
  lemma OneOfMeansAnyOf(lex: Lexicon, v: Json, s: Schema, root: bool, depth: nat)
    requires WellFormed(lex, s, root, depth) && s.oneOf.Branches? && |s.oneOf.list| > 1
    requires forall i, j | 0 <= i < j < |s.oneOf.list| ::
               Separated(s.oneOf.list[i], s.oneOf.list[j]) || ExactlyDiscriminated(s.oneOf.list[i], s.oneOf.list[j])
    ensures AcceptCount(lex, v, s.oneOf.list) <= 1
    ensures Accepts(lex, v, s) <==> Accepts(lex, v, AsAnyOf(s))
  {
    var branches := s.oneOf.list;
    AdmittedBranches(lex, s, root, depth);
    forall i, j | 0 <= i < j < |branches| ensures !BothAccept(lex, v, branches[i], branches[j]) {
      BranchesExclude(lex, v, branches[i], branches[j], root, depth + 1);
    }
    AtMostOneAccepts(lex, v, branches);
    AnyOfCounts(lex, v, s);
  }

  /** What the contract checker requires of the branches of a `oneOf`. */
  lemma AdmittedBranches(lex: Lexicon, s: Schema, root: bool, depth: nat)
    requires WellFormed(lex, s, root, depth) && s.oneOf.Branches? && |s.oneOf.list| > 1
    ensures forall i | 0 <= i < |s.oneOf.list| ::
              && WellFormed(lex, s.oneOf.list[i], root, depth + 1)
              && FiniteDiscriminants(s.oneOf.list[i]) != map[]
    ensures DistinctBranches(s.oneOf.list) && s.anyOf.NoBranches?
  {
  }

  /** The same branches decide both unions; only the number that must accept differs. */
  lemma AnyOfCounts(lex: Lexicon, v: Json, s: Schema)
    requires s.Schema? && s.oneOf.Branches? && s.oneOf.list != [] && s.anyOf.NoBranches?
    ensures Accepts(lex, v, s) <==> AcceptCount(lex, v, s.oneOf.list) == 1
    ensures Accepts(lex, v, AsAnyOf(s)) <==> AcceptCount(lex, v, s.oneOf.list) != 0
  {
  }

  lemma BranchesExclude(lex: Lexicon, v: Json, left: Schema, right: Schema, root: bool, depth: nat)
    requires WellFormed(lex, left, root, depth) && WellFormed(lex, right, root, depth)
    requires FiniteDiscriminants(left) != map[] && FiniteDiscriminants(right) != map[]
    requires BranchesAreDisjoint(FiniteDiscriminants(left), FiniteDiscriminants(right))
    requires Separated(left, right) || ExactlyDiscriminated(left, right)
    ensures !BothAccept(lex, v, left, right)
  {
    if !Separated(left, right) {
      ExactDiscriminantsSeparate(lex, left, right, root, depth);
    }
    SeparatedBranchesExclude(lex, v, left, right, root, depth);
  }

  // ---- where exclusivity fails ----

  function Pinned(t: TypeName, pin: Json): Schema {
    EMPTY.(typ := Is(t), constant := Some(pin))
  }

  function OneField(child: Schema): Schema {
    EMPTY.(typ := Is(TObject), properties := Properties([Property("kind", child)]), required := Is(["kind"]))
  }

  function EitherOf(left: Schema, right: Schema): Schema {
    EMPTY.(typ := Is(TObject), oneOf := Branches([OneField(left), OneField(right)]))
  }

  lemma EitherOfIsAdmitted(lex: Lexicon, left: Schema, right: Schema)
    requires !lex.privateName("kind")
    requires WellFormed(lex, left, false, 2) && WellFormed(lex, right, false, 2)
    requires FiniteValues(left) != {} && FiniteValues(right) != {} && FiniteValues(left) !! FiniteValues(right)
    ensures ParameterContract(lex, EitherOf(left, right))
  {
    var branches := [OneField(left), OneField(right)];
    forall c | c == left || c == right
      ensures FiniteDiscriminants(OneField(c)) == map["kind" := FiniteValues(c)]
    {
      var ps := [Property("kind", c)];
      assert ps[..0] == [];
      assert DiscriminantsOf(ps, ["kind"]) == DiscriminantsOf([], ["kind"])["kind" := FiniteValues(c)];
    }
    forall c | (c == left || c == right)
      ensures WellFormed(lex, OneField(c), true, 1)
    {
      assert PropertyList(OneField(c))[0].name == "kind";
      assert WellFormedObject(lex, OneField(c), 1);
    }
    assert BranchesAreDisjoint(FiniteDiscriminants(branches[0]), FiniteDiscriminants(branches[1])) by {
      assert "kind" in FiniteDiscriminants(branches[0]).Keys;
    }
    assert DistinctBranches(branches);
  }

  lemma BothBranchesAccept(lex: Lexicon, x: Json, left: Schema, right: Schema)
    requires Accepts(lex, x, left) && Accepts(lex, x, right)
    ensures var v := Obj([Field("kind", x)]);
            !Accepts(lex, v, EitherOf(left, right)) && Accepts(lex, v, AsAnyOf(EitherOf(left, right)))
  {
    var v := Obj([Field("kind", x)]);
    var branches := [OneField(left), OneField(right)];
    forall c | c == left || c == right
      ensures Accepts(lex, v, OneField(c))
    {
      assert HasKey(v.fields, "kind") by { assert v.fields[0].key == "kind"; }
      assert PropertyList(OneField(c))[0].name == v.fields[0].key;
      assert AcceptsObject(lex, v.fields, OneField(c));
    }
    assert branches[..1] == [OneField(left)] && [OneField(left)][..0] == [];
    assert AcceptCount(lex, v, [OneField(left)]) == AcceptCount(lex, v, []) + 1;
    assert AcceptCount(lex, v, branches) == 2;
  }

  /**
   Declared `number`, the pins 1 and 1.0 have different texts, so the contract checker admits them; the value 1
   matches both.
   */
  lemma NumberPinsAlias(lex: Lexicon)
    requires !lex.privateName("kind")
    ensures var s := EitherOf(Pinned(TNumber, Int(1)), Pinned(TNumber, Float(Finite(1.0))));
            var v := Obj([Field("kind", Int(1))]);
            ParameterContract(lex, s) && !Accepts(lex, v, s) && Accepts(lex, v, AsAnyOf(s))
  {
    var left, right := Pinned(TNumber, Int(1)), Pinned(TNumber, Float(Finite(1.0)));
    EitherOfIsAdmitted(lex, left, right);
    assert PyEqual(Int(1), Float(Finite(1.0)));
    BothBranchesAccept(lex, Int(1), left, right);
  }

  function EmptyList(pin: Json): Schema {
    EMPTY.(typ := Is(TArray), constant := Some(pin), items := Is(EMPTY.(typ := Is(TNull))), maxItems := Is(0))
  }

  /** On a container the pin is ignored by validation, so any two pins are admitted and any empty list matches both. */
  lemma ContainerPinsAreIgnored(lex: Lexicon)
    requires !lex.privateName("kind")
    ensures var s := EitherOf(EmptyList(Int(1)), EmptyList(Int(2)));
            var v := Obj([Field("kind", Arr([]))]);
            ParameterContract(lex, s) && !Accepts(lex, v, s) && Accepts(lex, v, AsAnyOf(s))
  {
    assert WellFormed(lex, EMPTY.(typ := Is(TNull)), false, 3);
    forall pin ensures WellFormed(lex, EmptyList(pin), false, 2) && Accepts(lex, Arr([]), EmptyList(pin)) {
      assert WellFormedArray(lex, EmptyList(pin), 2);
      assert AcceptsArray(lex, [], EmptyList(pin));
    }
    EitherOfIsAdmitted(lex, EmptyList(Int(1)), EmptyList(Int(2)));
    BothBranchesAccept(lex, Arr([]), EmptyList(Int(1)), EmptyList(Int(2)));
  }

  /** A schema that pins a scalar type and adds no further bound. */
  predicate PlainPin(s: Schema) {
    && s.Schema? && s.typ.Is? && ScalarType(s.typ.value) && FiniteValues(s) != {}
    && s.minimum.Absent? && s.maximum.Absent? && s.minLength.Absent? && s.maxLength.Absent? && s.pattern.Absent?
    && s.oneOf.NoBranches? && s.anyOf.NoBranches?
  }

  /** Exactly when two plainly pinned fields exclude each other: when no pin of one equals a pin of the other. */
  lemma PlainPinsExcludeExactlyWhenApart(lex: Lexicon, left: Schema, right: Schema, depth: nat)
    requires WellFormed(lex, left, false, depth) && WellFormed(lex, right, false, depth)
    requires PlainPin(left) && PlainPin(right)
    ensures PinsApart(left, right) <==> forall v :: !BothAccept(lex, v, left, right)
  {
    if PinsApart(left, right) {
      forall v ensures !BothAccept(lex, v, left, right) {
        PinnedValuesExclude(lex, v, left, right, depth);
      }
    } else {
      var a, b :| a in FiniteValues(left) && b in FiniteValues(right) && !Apart(a, b);
      var v := if b.Int? then b else a;
      PinHasDeclaredType(lex, left, a, depth);
      PinHasDeclaredType(lex, right, b, depth);
      PinIsAccepted(lex, v, a, left, depth);
      PinIsAccepted(lex, v, b, right, depth);
      assert BothAccept(lex, v, left, right);
    }
  }

  lemma PinIsAccepted(lex: Lexicon, v: Json, pin: Json, s: Schema, depth: nat)
    requires WellFormed(lex, s, false, depth) && PlainPin(s)
    requires pin in FiniteValues(s) && PyEqual(v, pin) && (v.Bool? <==> pin.Bool?)
    requires ScalarMatchesType(v, s.typ.value)
    ensures Accepts(lex, v, s)
  {
    if s.enumeration.Is? {
      if s.constant.Some? {
        var i :| 0 <= i < |s.enumeration.value| && PyEqual(pin, s.enumeration.value[i]);
        assert PyEqual(v, s.enumeration.value[i]);
      } else {
        var i :| 0 <= i < |s.enumeration.value| && s.enumeration.value[i] == pin;
        assert PyEqual(v, s.enumeration.value[i]);
      }
    }
  }
}
