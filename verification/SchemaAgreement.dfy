/** On every schema the contract checker admits, the two validators decide alike. */
module SchemaAgreement {
  import opened Json
  import opened Wrappers
  import opened SchemaContract
  import opened SchemaValidation

  ghost predicate Agree(lex: Lexicon, v: Json, s: Schema) {
    Violates(lex, v, s) <==> !(Accepts(lex, v, s) && NoPrivateName(lex, v))
  }

  /** `_value_violation` is silent exactly when `validate_value` accepts and no private name occurs at any depth. */
  lemma {:induction false} ValidatorsAgree(lex: Lexicon, v: Json, s: Schema, root: bool, depth: nat)
    requires WellFormed(lex, s, root, depth)
    ensures Violates(lex, v, s) <==> !(Accepts(lex, v, s) && NoPrivateName(lex, v))
    decreases s, 1
  {
    if !s.oneOf.NoBranches? {
      CountsAgree(lex, v, s.oneOf.list, root, depth + 1);
      UnionsAgree(lex, v, s);
    } else if !s.anyOf.NoBranches? {
      CountsAgree(lex, v, s.anyOf.list, root, depth + 1);
      UnionsAgree(lex, v, s);
    } else {
      if TypeMatches(v, s.typ) && s.typ.value == TObject {
        ObjectsAgree(lex, v, s, depth);
      }
      if TypeMatches(v, s.typ) && s.typ.value == TArray {
        ArraysAgree(lex, v, s, depth);
      }
      TypedAgree(lex, v, s, root, depth);
    }
  }

  /** Unions agree when their branches are counted alike. */
  lemma UnionsAgree(lex: Lexicon, v: Json, s: Schema)
    requires s.Schema? && (s.oneOf.NoBranches? || s.anyOf.NoBranches?)
    requires var branches := if s.oneOf.NoBranches? then s.anyOf else s.oneOf;
             && branches.Branches? && branches.list != []
             && CleanCount(lex, v, branches.list)
                == if NoPrivateName(lex, v) then AcceptCount(lex, v, branches.list) else 0
    ensures Agree(lex, v, s)
  {
  }

  /** Typed nodes agree when their containers do. */
  lemma TypedAgree(lex: Lexicon, v: Json, s: Schema, root: bool, depth: nat)
    requires WellFormed(lex, s, root, depth) && s.oneOf.NoBranches? && s.anyOf.NoBranches?
    requires v.Obj? && s.typ == Is(TObject) ==>
               (HasPrivateKey(lex, v) || ObjectViolates(lex, v.fields, s) <==>
                  !(AcceptsObject(lex, v.fields, s) && NoPrivateName(lex, v)))
    requires v.Arr? && s.typ == Is(TArray) ==>
               (ArrayViolates(lex, v.items, s) <==> !(AcceptsArray(lex, v.items, s) && NoPrivateName(lex, v)))
    ensures Agree(lex, v, s)
  {
    if TypeMatches(v, s.typ) && !v.Obj? && !v.Arr? {
      ScalarsAgree(lex, v, s);
    }
  }

  /** The scalar checks agree; a null schema has pins no null can miss. */
  lemma ScalarsAgree(lex: Lexicon, v: Json, s: Schema)
    requires s.Schema? && s.typ.Is? && TypeMatches(v, s.typ) && WellFormedPrimitive(lex, s)
    ensures ScalarViolates(lex, v, s) <==> !ScalarKeywordsHold(lex, v, s)
    ensures v.Null? ==> ScalarKeywordsHold(lex, v, s)
    ensures ScalarKeywordsHold(lex, v, s) && s.typ.value != TObject && s.typ.value != TArray ==>
              ScalarMatchesType(v, s.typ.value)
  {
    if v.Null? && s.enumeration.Is? {
      assert s.enumeration.value[0] in s.enumeration.value;
      assert PyEqual(v, s.enumeration.value[0]);
    }
  }

  /** Without private names both unions count the same branches; with one, no branch is free of violations. */
  lemma {:induction false} CountsAgree(lex: Lexicon, v: Json, branches: seq<Schema>, root: bool, depth: nat)
    requires forall i | 0 <= i < |branches| :: WellFormed(lex, branches[i], root, depth)
    ensures CleanCount(lex, v, branches) == if NoPrivateName(lex, v) then AcceptCount(lex, v, branches) else 0
    decreases branches, 0
  {
    if branches == [] {
    } else {
      CountsAgree(lex, v, branches[..|branches| - 1], root, depth);
      ValidatorsAgree(lex, v, branches[|branches| - 1], root, depth);
    }
  }

  lemma {:induction false} ArraysAgree(lex: Lexicon, v: Json, s: Schema, depth: nat)
    requires s.Schema? && s.typ == Is(TArray) && WellFormedArray(lex, s, depth) && v.Arr?
    ensures ArrayViolates(lex, v.items, s) <==> !(AcceptsArray(lex, v.items, s) && NoPrivateName(lex, v))
    decreases s, 0
  {
    forall i | 0 <= i < |v.items|
      ensures Agree(lex, v.items[i], s.items.value)
    {
      ValidatorsAgree(lex, v.items[i], s.items.value, false, depth + 1);
    }
  }

  lemma {:induction false} ObjectsAgree(lex: Lexicon, v: Json, s: Schema, depth: nat)
    requires s.Schema? && s.typ == Is(TObject) && WellFormedObject(lex, s, depth) && v.Obj?
    ensures HasPrivateKey(lex, v) || ObjectViolates(lex, v.fields, s)
       <==> !(AcceptsObject(lex, v.fields, s) && NoPrivateName(lex, v))
    decreases s, 0
  {
    forall i, j | 0 <= i < |v.fields| && 0 <= j < |PropertyList(s)|
      ensures Agree(lex, v.fields[i].value, s.properties.list[j].schema)
    {
      ValidatorsAgree(lex, v.fields[i].value, s.properties.list[j].schema, false, depth + 1);
    }
    forall i | 0 <= i < |v.fields| && s.additional.Typed?
      ensures Agree(lex, v.fields[i].value, s.additional.schema)
      ensures Agree(lex, Str(v.fields[i].key), s.propertyNames.value)
    {
      ValidatorsAgree(lex, v.fields[i].value, s.additional.schema, false, depth + 1);
      ValidatorsAgree(lex, Str(v.fields[i].key), s.propertyNames.value, false, depth + 1);
    }
    FieldsAgree(lex, v, s, depth);
  }

  lemma FieldsAgree(lex: Lexicon, v: Json, s: Schema, depth: nat)
    requires s.Schema? && WellFormedObject(lex, s, depth) && v.Obj?
    requires forall i, j | 0 <= i < |v.fields| && 0 <= j < |PropertyList(s)| ::
               Agree(lex, v.fields[i].value, s.properties.list[j].schema)
    requires s.additional.Typed? ==> forall i | 0 <= i < |v.fields| ::
               && Agree(lex, v.fields[i].value, s.additional.schema)
               && Agree(lex, Str(v.fields[i].key), s.propertyNames.value)
    ensures HasPrivateKey(lex, v) || ObjectViolates(lex, v.fields, s)
       <==> !(AcceptsObject(lex, v.fields, s) && NoPrivateName(lex, v))
  {
    var fields := v.fields;
    if AcceptsObject(lex, fields, s) && NoPrivateName(lex, v) {
      forall i | 0 <= i < |fields| ensures !FieldViolates(lex, fields[i], s) {
      }
      assert !ObjectViolates(lex, fields, s);
    }
    if !HasPrivateKey(lex, v) && !ObjectViolates(lex, fields, s) {
      forall i | 0 <= i < |fields|
        ensures NoPrivateName(lex, fields[i].value)
      {
        assert !FieldViolates(lex, fields[i], s);
        if Declares(PropertyList(s), fields[i].key) {
          var j :| 0 <= j < |PropertyList(s)| && PropertyList(s)[j].name == fields[i].key;
          assert Agree(lex, fields[i].value, s.properties.list[j].schema);
        }
      }
      forall i, j | 0 <= i < |fields| && 0 <= j < |PropertyList(s)| && s.properties.list[j].name == fields[i].key
        ensures Accepts(lex, fields[i].value, s.properties.list[j].schema)
      {
        assert !FieldViolates(lex, fields[i], s);
        assert Agree(lex, fields[i].value, s.properties.list[j].schema);
      }
      forall i | 0 <= i < |fields| && s.additional.Typed?
        ensures Declares(PropertyList(s), fields[i].key) || Accepts(lex, fields[i].value, s.additional.schema)
      {
        assert !FieldViolates(lex, fields[i], s);
        assert Agree(lex, fields[i].value, s.additional.schema);
      }
      assert AcceptsObject(lex, fields, s);
    }
  }
}
