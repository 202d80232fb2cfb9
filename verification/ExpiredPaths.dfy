/** Exactly which positions of a value expire, without the walk that collects them. */
module ExpiredPaths {
  import opened Json
  import opened Wrappers
  import opened SchemaContract
  import opened SchemaValidation
  import opened SchemaMeaning
  import opened InvalidPaths
  import opened PruningTheorems

  /** An object whose fields can be judged one by one: no union, not overfull, and every key can be part of a path. */
  ghost predicate Divisible(v: Json, s: Schema) {
    && s.Schema? && NoUnion(s) && s.typ == Is(TObject) && !s.properties.BadProperties?
    && v.Obj?
    && (s.maxProperties.Is? ==> s.maxProperties.value >= |v.fields|)
    && forall f | f in v.fields :: f.key != ""
  }

  /**
   What is indivisible expires as a whole. Of an object that is not, a field expires as a whole when its name is not
   allowed or nothing governs it, and otherwise, if its value violates the schema that governs it, as that value does.
   */
  ghost predicate Expires(lex: Lexicon, v: Json, s: Schema, rel: Path)
    decreases s, 1
  {
    if !Divisible(v, s) then rel == []
    else rel != [] && exists i | 0 <= i < |v.fields| ::
           v.fields[i].key == rel[0] && FieldExpires(lex, v.fields[i], s, rel[1..])
  }

  ghost predicate FieldExpires(lex: Lexicon, f: Field, s: Schema, rest: Path)
    requires s.Schema?
    decreases s, 0
  {
    if lex.privateName(f.key) then rest == []
    else if s.propertyNames.Is? && Violates(lex, Str(f.key), s.propertyNames.value) then rest == []
    else if s.properties.Properties? && exists p :: p in s.properties.list && p.name == f.key then
      exists j | 0 <= j < |s.properties.list| ::
        && s.properties.list[j].name == f.key && (forall k | 0 <= k < j :: s.properties.list[k].name != f.key)
        && Violates(lex, f.value, s.properties.list[j].schema)
        && Expires(lex, f.value, s.properties.list[j].schema, rest)
    else
      match s.additional
      case Typed(extra) => Violates(lex, f.value, extra) && Expires(lex, f.value, extra, rest)
      case NoAdditional => rest == []
      case Flag(allowed) => !allowed && rest == []
      case BadAdditional => false
  }

  lemma DivisibleIsJudged(v: Json, s: Schema)
    ensures Divisible(v, s) <==> JudgedByField(v, s)
  {
    if v.Obj? {
      forall i | 0 <= i < |v.fields| ensures v.fields[i] in v.fields {
      }
    }
  }

  lemma FirstProperty(properties: seq<Property>, name: string, j: nat)
    requires j < |properties| && properties[j].name == name
    requires forall k | 0 <= k < j :: properties[k].name != name
    ensures PropertyIndex(properties, name) == j
  {
    if j > 0 {
      assert properties[1..][j - 1] == properties[j];
      FirstProperty(properties[1..], name, j - 1);
    }
  }

  lemma IndexIsFirst(properties: seq<Property>, name: string)
    ensures forall k | 0 <= k < PropertyIndex(properties, name) :: properties[k].name != name
  {
    if properties != [] && properties[0].name != name {
      IndexIsFirst(properties[1..], name);
      forall k | 0 <= k < PropertyIndex(properties, name) ensures properties[k].name != name {
        assert k > 0 ==> properties[k] == properties[1..][k - 1];
      }
    }
  }

  /** The walk locates a position exactly when it expires. */
  lemma {:induction false} ExpiresExactly(lex: Lexicon, v: Json, s: Schema, at: Path, rel: Path)
    ensures at + rel in PathsIn(lex, v, s, at) <==> Expires(lex, v, s, rel)
    decreases s, 1
  {
    DivisibleIsJudged(v, s);
    if !Divisible(v, s) {
      assert at + rel == at <==> rel == [];
    } else {
      FieldPathsAre(lex, v.fields, s, at);
      forall i | 0 <= i < |v.fields|
        ensures FromField(lex, at + rel, v.fields[i], s, at) <==>
                  rel != [] && v.fields[i].key == rel[0] && FieldExpires(lex, v.fields[i], s, rel[1..])
      {
        FromFieldIs(lex, v.fields[i], s, at, rel);
      }
    }
  }

  lemma KeyComesNext(at: Path, key: string, rel: Path)
    requires Below(at + [key], at + rel)
    ensures rel != [] && rel[0] == key
  {
    assert (at + rel)[|at|] == (at + [key])[|at|];
  }

  lemma {:induction false} FromFieldIs(lex: Lexicon, f: Field, s: Schema, at: Path, rel: Path)
    requires s.Schema?
    ensures FromField(lex, at + rel, f, s, at) <==> rel != [] && f.key == rel[0] && FieldExpires(lex, f, s, rel[1..])
    decreases s, 0, 1
  {
    var here := at + [f.key];
    if rel != [] && rel[0] == f.key {
      assert at + rel == here + rel[1..];
      FieldExpiresExactly(lex, f, s, here, rel[1..]);
    } else if FromField(lex, at + rel, f, s, at) {
      PathsOfFieldExtend(lex, f, s, here);
      KeyComesNext(at, f.key, rel);
    }
  }

  lemma {:induction false} FieldExpiresExactly(lex: Lexicon, f: Field, s: Schema, at: Path, rest: Path)
    requires s.Schema?
    ensures at + rest in PathsOfField(lex, f, s, at) <==> FieldExpires(lex, f, s, rest)
    decreases s, 0, 0
  {
    assert at + rest == at <==> rest == [];
    var j := PropertyIndex(PropertyList(s), f.key);
    IndexIsFirst(PropertyList(s), f.key);
    DeclaredName(PropertyList(s), f.key);
    if s.properties.Properties? && j < |s.properties.list| {
      ExpiresExactly(lex, f.value, s.properties.list[j].schema, at, rest);
      forall i: nat | i < |s.properties.list| && s.properties.list[i].name == f.key
                      && forall k | 0 <= k < i :: s.properties.list[k].name != f.key
        ensures i == j
      {
        FirstProperty(s.properties.list, f.key, i);
      }
    } else if s.additional.Typed? {
      ExpiresExactly(lex, f.value, s.additional.schema, at, rest);
    }
  }

  /** What the pruner returns: an error for a schema that is not admitted, and otherwise exactly what expires. */
  lemma InvalidPathsAre(lex: Lexicon, v: Json, s: Schema)
    requires UniqueKeys(v)
    ensures InvalidValuePaths(lex, v, s).Raised? <==> !ParameterContract(lex, s)
    ensures ParameterContract(lex, s) ==>
              forall q :: q in InvalidValuePaths(lex, v, s).value <==> Violates(lex, v, s) && Expires(lex, v, s, q)
  {
    if ParameterContract(lex, s) && Violates(lex, v, s) {
      var located := PathsIn(lex, v, s, []);
      MinimalPathsAre(located);
      forall q ensures q in MinimalPaths(located) <==> Expires(lex, v, s, q) {
        ExpiresExactly(lex, v, s, [], q);
        assert [] + q == q;
        if q in located && exists i | 0 <= i < |located| :: located[i] < q {
          var i :| 0 <= i < |located| && located[i] < q;
          PathsAreIncomparable(lex, v, s, [], located[i], q);
        }
      }
    }
  }
}
