/** Pruning at the invalid paths removes every defect except missing fields, and removes nothing meaningful. */
module PruningTheorems {
  import opened Json
  import opened Wrappers
  import opened Lexicographic
  import opened SchemaContract
  import opened SchemaValidation
  import opened InvalidPaths

  /** `q` is `at` or a path below it. */
  ghost predicate Below(at: Path, q: Path) {
    at <= q
  }

  lemma BelowChild(at: Path, key: string, q: Path)
    requires Below(at + [key], q)
    ensures Below(at, q)
  {
    assert at == (at + [key])[..|at|] == q[..|at|];
  }

  // ---- the shape of the path list ----

  lemma {:induction false} PathsExtend(lex: Lexicon, v: Json, s: Schema, at: Path)
    ensures forall q :: q in PathsIn(lex, v, s, at) ==> Below(at, q)
    decreases s, 1
  {
    if JudgedByField(v, s) {
      FieldPathsAre(lex, v.fields, s, at);
      forall i | 0 <= i < |v.fields|
        ensures forall q :: FromField(lex, q, v.fields[i], s, at) ==> Below(at, q)
      {
        PathsOfFieldExtend(lex, v.fields[i], s, at + [v.fields[i].key]);
        forall q | FromField(lex, q, v.fields[i], s, at) ensures Below(at, q) {
          BelowChild(at, v.fields[i].key, q);
        }
      }
    }
  }

  lemma {:induction false} PathsOfFieldExtend(lex: Lexicon, f: Field, s: Schema, at: Path)
    requires s.Schema?
    ensures forall q :: q in PathsOfField(lex, f, s, at) ==> Below(at, q)
    decreases s, 0
  {
    var i := PropertyIndex(PropertyList(s), f.key);
    if s.properties.Properties? && i < |s.properties.list| {
      PathsExtend(lex, f.value, s.properties.list[i].schema, at);
    } else if s.additional.Typed? {
      PathsExtend(lex, f.value, s.additional.schema, at);
    }
  }

  ghost predicate FromField(lex: Lexicon, q: Path, f: Field, s: Schema, at: Path)
    requires s.Schema?
  {
    q in PathsOfField(lex, f, s, at + [f.key])
  }

  lemma {:induction false} FieldPathsAre(lex: Lexicon, fields: seq<Field>, s: Schema, at: Path)
    requires s.Schema?
    ensures forall q :: q in FieldPaths(lex, fields, s, at) <==>
              exists i :: 0 <= i < |fields| && FromField(lex, q, fields[i], s, at)
  {
    if fields == [] {
    } else {
      var front, last := fields[..|fields| - 1], fields[|fields| - 1];
      FieldPathsAre(lex, front, s, at);
      forall q
        ensures q in FieldPaths(lex, fields, s, at) <==>
                  exists i :: 0 <= i < |fields| && FromField(lex, q, fields[i], s, at)
      {
        assert q in FieldPaths(lex, fields, s, at) <==>
               q in FieldPaths(lex, front, s, at) || FromField(lex, q, last, s, at);
        if i :| 0 <= i < |fields| && FromField(lex, q, fields[i], s, at) && i < |front| {
          assert front[i] == fields[i];
        }
        if i :| 0 <= i < |front| && FromField(lex, q, front[i], s, at) {
          assert fields[i] == front[i];
        }
      }
    }
  }

  lemma SiblingKeysDiffer(v: Json, i: nat, j: nat, at: Path, q: Path)
    requires v.Obj? && UniqueKeys(v) && i < |v.fields| && j < |v.fields|
    requires Below(at + [v.fields[i].key], q) && Below(at + [v.fields[j].key], q)
    ensures i == j
  {
    assert q[|at|] == (at + [v.fields[i].key])[|at|] == (at + [v.fields[j].key])[|at|];
  }

  /** Below one field, the paths of the whole object are the paths of that field. */
  lemma PathsBelowField(lex: Lexicon, v: Json, s: Schema, at: Path, i: nat, q: Path)
    requires JudgedByField(v, s) && UniqueKeys(v) && i < |v.fields|
    requires Below(at + [v.fields[i].key], q)
    ensures q in PathsIn(lex, v, s, at) <==> FromField(lex, q, v.fields[i], s, at)
  {
    FieldPathsAre(lex, v.fields, s, at);
    assert PathsIn(lex, v, s, at) == FieldPaths(lex, v.fields, s, at);
    if q in PathsIn(lex, v, s, at) {
      var j :| 0 <= j < |v.fields| && FromField(lex, q, v.fields[j], s, at);
      PathsOfFieldExtend(lex, v.fields[j], s, at + [v.fields[j].key]);
      SiblingKeysDiffer(v, i, j, at, q);
    }
  }

  /** No located path lies below another. */
  lemma {:induction false} PathsAreIncomparable(lex: Lexicon, v: Json, s: Schema, at: Path, p: Path, q: Path)
    requires UniqueKeys(v) && p in PathsIn(lex, v, s, at) && q in PathsIn(lex, v, s, at)
    ensures !(p < q)
    decreases s
  {
    if JudgedByField(v, s) && p < q {
      FieldPathsAre(lex, v.fields, s, at);
      var i :| 0 <= i < |v.fields| && FromField(lex, p, v.fields[i], s, at);
      var f := v.fields[i];
      PathsOfFieldExtend(lex, f, s, at + [f.key]);
      assert Below(at + [f.key], q);
      PathsBelowField(lex, v, s, at, i, q);
      var k := PropertyIndex(PropertyList(s), f.key);
      if IllegalKey(lex, f.key, s) {
      } else if s.properties.Properties? && k < |s.properties.list| {
        PathsAreIncomparable(lex, f.value, s.properties.list[k].schema, at + [f.key], p, q);
      } else if !ForbidsUndeclared(s) {
        PathsAreIncomparable(lex, f.value, s.additional.schema, at + [f.key], p, q);
      }
    }
  }

  // ---- deletion ----

  ghost predicate DoomedBelow(doomed: seq<Path>, at: Path, paths: seq<Path>) {
    forall q | Below(at, q) :: q in doomed <==> q in paths
  }

  lemma {:induction false} DeleteNothing(v: Json, at: Path, doomed: seq<Path>)
    requires forall q | Below(at, q) :: q !in doomed
    ensures Delete(v, at, doomed) == v
    decreases v, 1
  {
    if v.Obj? {
      DeleteNoField(v, v.fields, at, doomed);
    }
  }

  lemma {:induction false} DeleteNoField(v: Json, fields: seq<Field>, at: Path, doomed: seq<Path>)
    requires forall i | 0 <= i < |fields| :: fields[i].value < v
    requires forall q | Below(at, q) :: q !in doomed
    ensures DeleteFields(v, fields, at, doomed) == fields
    decreases v, 0, |fields|
  {
    if fields == [] {
    } else {
      var last := fields[|fields| - 1];
      DeleteNoField(v, fields[..|fields| - 1], at, doomed);
      forall q | Below(at + [last.key], q) ensures q !in doomed {
        BelowChild(at, last.key, q);
      }
      assert Below(at, at + [last.key]);
      DeleteNothing(last.value, at + [last.key], doomed);
      assert fields == fields[..|fields| - 1] + [last];
    }
  }

  /** A value free of violations has no defect at all, so none but missing fields. */
  lemma {:induction false} CleanIsOnlyMissing(lex: Lexicon, v: Json, s: Schema, root: bool, depth: nat)
    requires WellFormed(lex, s, root, depth)
    ensures !Violates(lex, v, s) <==> OnlyMissing(lex, v, s) && NothingMissing(lex, v, s)
    decreases s
  {
    if !IsUnion(s) && s.typ == Is(TObject) && v.Obj? {
      assert WellFormedObject(lex, s, depth);
      forall i, j | 0 <= i < |v.fields| && 0 <= j < |PropertyList(s)|
        ensures !Violates(lex, v.fields[i].value, s.properties.list[j].schema) <==>
                  && OnlyMissing(lex, v.fields[i].value, s.properties.list[j].schema)
                  && NothingMissing(lex, v.fields[i].value, s.properties.list[j].schema)
      {
        CleanIsOnlyMissing(lex, v.fields[i].value, s.properties.list[j].schema, false, depth + 1);
      }
      forall i | 0 <= i < |v.fields| && s.additional.Typed?
        ensures !Violates(lex, v.fields[i].value, s.additional.schema) <==>
                  && OnlyMissing(lex, v.fields[i].value, s.additional.schema)
                  && NothingMissing(lex, v.fields[i].value, s.additional.schema)
      {
        CleanIsOnlyMissing(lex, v.fields[i].value, s.additional.schema, false, depth + 1);
      }
      CleanObject(lex, v, s, depth);
    }
  }

  lemma CleanObject(lex: Lexicon, v: Json, s: Schema, depth: nat)
    requires s.Schema? && WellFormedObject(lex, s, depth) && v.Obj? && !IsUnion(s) && s.typ == Is(TObject)
    requires forall i, j | 0 <= i < |v.fields| && 0 <= j < |PropertyList(s)| ::
               !Violates(lex, v.fields[i].value, s.properties.list[j].schema) <==>
                 && OnlyMissing(lex, v.fields[i].value, s.properties.list[j].schema)
                 && NothingMissing(lex, v.fields[i].value, s.properties.list[j].schema)
    requires s.additional.Typed? ==> forall i | 0 <= i < |v.fields| ::
               !Violates(lex, v.fields[i].value, s.additional.schema) <==>
                 && OnlyMissing(lex, v.fields[i].value, s.additional.schema)
                 && NothingMissing(lex, v.fields[i].value, s.additional.schema)
    ensures !HasPrivateKey(lex, v) && !ObjectViolates(lex, v.fields, s)
       <==> OnlyMissing(lex, v, s) && NothingMissing(lex, v, s)
  {
    if !HasPrivateKey(lex, v) && !ObjectViolates(lex, v.fields, s) {
      assert forall i | 0 <= i < |v.fields| :: !FieldViolates(lex, v.fields[i], s);
    }
    if OnlyMissing(lex, v, s) && NothingMissing(lex, v, s) {
      forall i | 0 <= i < |v.fields| ensures !FieldViolates(lex, v.fields[i], s) {
      }
    }
  }

  /** A surviving field is a field of the original, outside every doomed path, itself pruned. */
  ghost predicate Survives(kept: Field, f: Field, at: Path, doomed: seq<Path>) {
    at + [f.key] !in doomed && kept == Field(f.key, Delete(f.value, at + [f.key], doomed))
  }

  lemma {:induction false} KeptFields(v: Json, fields: seq<Field>, at: Path, doomed: seq<Path>)
    requires forall i | 0 <= i < |fields| :: fields[i].value < v
    ensures |DeleteFields(v, fields, at, doomed)| <= |fields|
    ensures forall k | 0 <= k < |DeleteFields(v, fields, at, doomed)| ::
              exists i :: 0 <= i < |fields| && Survives(DeleteFields(v, fields, at, doomed)[k], fields[i], at, doomed)
  {
    if fields == [] {
    } else {
      var front := fields[..|fields| - 1];
      KeptFields(v, front, at, doomed);
      var kept := DeleteFields(v, fields, at, doomed);
      forall k | 0 <= k < |kept|
        ensures exists i :: 0 <= i < |fields| && Survives(kept[k], fields[i], at, doomed)
      {
        if k < |DeleteFields(v, front, at, doomed)| {
          var i :| 0 <= i < |front| && Survives(kept[k], front[i], at, doomed);
          assert front[i] == fields[i];
        } else {
          assert Survives(kept[k], fields[|fields| - 1], at, doomed);
        }
      }
    }
  }

  /** Deleting the located paths of a violating value leaves, if the value itself survives, only missing fields. */
  lemma {:induction false} PrunedIsOnlyMissing(lex: Lexicon, v: Json, s: Schema, at: Path, doomed: seq<Path>,
                                               root: bool, depth: nat)
    requires WellFormed(lex, s, root, depth) && UniqueKeys(v)
    requires at !in doomed && DoomedBelow(doomed, at, PathsIn(lex, v, s, at))
    ensures OnlyMissing(lex, Delete(v, at, doomed), s)
    decreases s, 1
  {
    assert Below(at, at);
    assert at !in PathsIn(lex, v, s, at);
    assert JudgedByField(v, s) && WellFormedObject(lex, s, depth);
    var pruned := Delete(v, at, doomed);
    KeptFields(v, v.fields, at, doomed);
    forall k | 0 <= k < |pruned.fields|
      ensures FieldOnlyMissing(lex, pruned.fields[k], s)
    {
      var i :| 0 <= i < |v.fields| && Survives(pruned.fields[k], v.fields[i], at, doomed);
      FieldSurvives(lex, v, s, at, doomed, i, depth);
    }
    FieldsOnlyMissing(lex, pruned, s);
  }

  /** One field has no defect except missing fields below it. */
  ghost predicate FieldOnlyMissing(lex: Lexicon, f: Field, s: Schema)
    requires s.Schema?
  {
    && !IllegalKey(lex, f.key, s)
    && (ForbidsUndeclared(s) ==> Declares(PropertyList(s), f.key))
    && (s.properties.Properties? ==> forall j | 0 <= j < |s.properties.list| ::
          s.properties.list[j].name == f.key ==> OnlyMissing(lex, f.value, s.properties.list[j].schema))
    && (s.additional.Typed? ==>
          Declares(PropertyList(s), f.key) || OnlyMissing(lex, f.value, s.additional.schema))
  }

  lemma FieldsOnlyMissing(lex: Lexicon, v: Json, s: Schema)
    requires JudgedByField(v, s)
             || (v.Obj? && s.Schema? && !IsUnion(s) && s.typ == Is(TObject) && !s.properties.BadProperties?)
    requires s.maxProperties.Is? ==> |v.fields| <= s.maxProperties.value
    requires forall k | 0 <= k < |v.fields| :: FieldOnlyMissing(lex, v.fields[k], s)
    ensures OnlyMissing(lex, v, s)
  {
  }

  lemma {:induction false} FieldSurvives(lex: Lexicon, v: Json, s: Schema, at: Path, doomed: seq<Path>, i: nat,
                                         depth: nat)
    requires JudgedByField(v, s) && WellFormedObject(lex, s, depth) && UniqueKeys(v) && i < |v.fields|
    requires DoomedBelow(doomed, at, PathsIn(lex, v, s, at))
    requires at + [v.fields[i].key] !in doomed
    ensures FieldOnlyMissing(lex, Field(v.fields[i].key, Delete(v.fields[i].value, at + [v.fields[i].key], doomed)), s)
    decreases s, 0
  {
    var f := v.fields[i];
    var here := at + [f.key];
    DoomedBelowField(lex, v, s, at, doomed, i);
    assert Below(here, here);
    var k := PropertyIndex(PropertyList(s), f.key);
    assert !IllegalKey(lex, f.key, s);
    if s.properties.Properties? && k < |s.properties.list| {
      ChildSurvives(lex, f.value, s.properties.list[k].schema, here, doomed, depth + 1);
      DeclaredFieldOnlyMissing(lex, Field(f.key, Delete(f.value, here, doomed)), s, k);
    } else {
      assert !ForbidsUndeclared(s);
      ChildSurvives(lex, f.value, s.additional.schema, here, doomed, depth + 1);
    }
  }

  /** Property names are unique, so one declaration judges the field. */
  lemma DeclaredFieldOnlyMissing(lex: Lexicon, f: Field, s: Schema, k: nat)
    requires s.Schema? && s.properties.Properties? && UniqueNames(s.properties.list)
    requires k < |s.properties.list| && s.properties.list[k].name == f.key && !IllegalKey(lex, f.key, s)
    requires OnlyMissing(lex, f.value, s.properties.list[k].schema)
    ensures FieldOnlyMissing(lex, f, s)
  {
    forall j | 0 <= j < |s.properties.list| && s.properties.list[j].name == f.key ensures j == k {
    }
  }

  lemma DoomedBelowField(lex: Lexicon, v: Json, s: Schema, at: Path, doomed: seq<Path>, i: nat)
    requires JudgedByField(v, s) && UniqueKeys(v) && i < |v.fields|
    requires DoomedBelow(doomed, at, PathsIn(lex, v, s, at))
    ensures DoomedBelow(doomed, at + [v.fields[i].key], PathsOfField(lex, v.fields[i], s, at + [v.fields[i].key]))
  {
    forall q | Below(at + [v.fields[i].key], q)
      ensures q in doomed <==> q in PathsOfField(lex, v.fields[i], s, at + [v.fields[i].key])
    {
      BelowChild(at, v.fields[i].key, q);
      PathsBelowField(lex, v, s, at, i, q);
      assert FromField(lex, q, v.fields[i], s, at) <==> q in PathsOfField(lex, v.fields[i], s, at + [v.fields[i].key]);
    }
  }

  lemma {:induction false} ChildSurvives(lex: Lexicon, v: Json, child: Schema, at: Path, doomed: seq<Path>, depth: nat)
    requires WellFormed(lex, child, false, depth) && UniqueKeys(v)
    requires at !in doomed
    requires DoomedBelow(doomed, at, if Violates(lex, v, child) then PathsIn(lex, v, child, at) else [])
    ensures OnlyMissing(lex, Delete(v, at, doomed), child)
    decreases child, 2
  {
    if Violates(lex, v, child) {
      PrunedIsOnlyMissing(lex, v, child, at, doomed, false, depth);
    } else {
      DeleteNothing(v, at, doomed);
      CleanIsOnlyMissing(lex, v, child, false, depth);
    }
  }

  // ---- every located path is a genuine defect, present in the value ----

  ghost predicate PresentAt(v: Json, rel: Path)
    decreases |rel|
  {
    rel == [] ||
    (v.Obj? && exists i :: 0 <= i < |v.fields| && v.fields[i].key == rel[0] && PresentAt(v.fields[i].value, rel[1..]))
  }

  /** Something is wrong at `rel` itself: a violating value, an illegal key, an undeclared field. */
  ghost predicate DefectAt(lex: Lexicon, v: Json, s: Schema, rel: Path)
    decreases |rel|, 1
  {
    if rel == [] then Violates(lex, v, s)
    else
      v.Obj? && s.Schema? &&
      exists i :: 0 <= i < |v.fields| && v.fields[i].key == rel[0] && FieldDefectAt(lex, v.fields[i], s, rel)
  }

  ghost predicate FieldDefectAt(lex: Lexicon, f: Field, s: Schema, rel: Path)
    requires s.Schema? && rel != []
    decreases |rel|, 0
  {
    || (|rel| == 1 && IllegalKey(lex, f.key, s))
    || if Declares(PropertyList(s), f.key) then
         DefectAt(lex, f.value, PropertyList(s)[PropertyIndex(PropertyList(s), f.key)].schema, rel[1..])
       else
         || (|rel| == 1 && ForbidsUndeclared(s))
         || (s.additional.Typed? && DefectAt(lex, f.value, s.additional.schema, rel[1..]))
  }

  /** The value at `rel` has a legal, governed name all the way down, and does not violate its schema. */
  ghost predicate MeaningfulAt(lex: Lexicon, v: Json, s: Schema, rel: Path)
    decreases |rel|
  {
    if rel == [] then !Violates(lex, v, s)
    else
      v.Obj? && s.Schema? &&
      exists i :: 0 <= i < |v.fields| && v.fields[i].key == rel[0] && !IllegalKey(lex, rel[0], s) &&
        if Declares(PropertyList(s), rel[0]) then
          MeaningfulAt(lex, v.fields[i].value, PropertyList(s)[PropertyIndex(PropertyList(s), rel[0])].schema, rel[1..])
        else
          s.additional.Typed? && MeaningfulAt(lex, v.fields[i].value, s.additional.schema, rel[1..])
  }

  /** Nothing is both meaningful and defective. */
  lemma {:induction false} MeaningfulIsNoDefect(lex: Lexicon, v: Json, s: Schema, rel: Path)
    requires UniqueKeys(v) && MeaningfulAt(lex, v, s, rel)
    ensures !DefectAt(lex, v, s, rel)
    decreases |rel|
  {
    if rel != [] && DefectAt(lex, v, s, rel) {
      var i :| 0 <= i < |v.fields| && v.fields[i].key == rel[0] && FieldDefectAt(lex, v.fields[i], s, rel);
      if Declares(PropertyList(s), rel[0]) {
        MeaningfulIsNoDefect(lex, v.fields[i].value, PropertyList(s)[PropertyIndex(PropertyList(s), rel[0])].schema,
                             rel[1..]);
      } else {
        MeaningfulIsNoDefect(lex, v.fields[i].value, s.additional.schema, rel[1..]);
      }
    }
  }

  lemma {:induction false} LocatedIsDefect(lex: Lexicon, v: Json, s: Schema, at: Path, rel: Path)
    requires Violates(lex, v, s) && at + rel in PathsIn(lex, v, s, at)
    ensures DefectAt(lex, v, s, rel) && PresentAt(v, rel)
    decreases s
  {
    if JudgedByField(v, s) {
      FieldPathsAre(lex, v.fields, s, at);
      assert PathsIn(lex, v, s, at) == FieldPaths(lex, v.fields, s, at);
      var i :| 0 <= i < |v.fields| && FromField(lex, at + rel, v.fields[i], s, at);
      var f := v.fields[i];
      PathsOfFieldExtend(lex, f, s, at + [f.key]);
      assert Below(at + [f.key], at + rel);
      assert (at + rel)[|at|] == (at + [f.key])[|at|];
      assert at + rel == at + [f.key] + rel[1..];
      var k := PropertyIndex(PropertyList(s), f.key);
      if IllegalKey(lex, f.key, s) {
        assert |at + rel| == |at + [f.key]|;
      } else if k < |PropertyList(s)| {
        LocatedIsDefect(lex, f.value, s.properties.list[k].schema, at + [f.key], rel[1..]);
      } else if ForbidsUndeclared(s) {
        assert |at + rel| == |at + [f.key]|;
      } else {
        LocatedIsDefect(lex, f.value, s.additional.schema, at + [f.key], rel[1..]);
      }
      assert FieldDefectAt(lex, f, s, rel);
    } else {
      assert |at + rel| == |at|;
    }
  }

  // ---- the list itself ----

  lemma {:induction false} WithoutAncestorsKeeps(paths: seq<Path>, all: seq<Path>)
    ensures forall q :: q in WithoutAncestors(paths, all) <==> q in paths && !exists i | 0 <= i < |all| :: all[i] < q
  {
    if paths == [] {
    } else {
      WithoutAncestorsKeeps(paths[1..], all);
      assert paths == [paths[0]] + paths[1..];
    }
  }

  lemma PathsAreOrdered()
    ensures StrictTotalOrder(PathLess)
  {
    StringsAreOrdered();
    SequencesAreOrdered(StringLess, PathLess);
  }

  /** Minimising keeps exactly the paths without a located ancestor, in strict order. */
  lemma MinimalPathsAre(paths: seq<Path>)
    ensures StrictlySorted(PathLess, MinimalPaths(paths))
    ensures forall q :: q in MinimalPaths(paths) <==> q in paths && !exists i | 0 <= i < |paths| :: paths[i] < q
    ensures forall p, q :: p in MinimalPaths(paths) && q in MinimalPaths(paths) ==> !(p < q)
  {
    PathsAreOrdered();
    WithoutAncestorsKeeps(paths, paths);
    SortedSetSorts(PathLess, WithoutAncestors(paths, paths));
  }

  /**
   For an admitted schema the invalid paths are a strictly sorted, prefix-free list of positions of the value.
   Either the value as a whole is expired, or deleting the paths leaves only missing required fields.
   Each path is a genuine defect, so no meaningful value is ever removed on its own account.
   */
  lemma PruningIsExact(lex: Lexicon, v: Json, s: Schema)
    requires ParameterContract(lex, s) && UniqueKeys(v)
    ensures InvalidValuePaths(lex, v, s).Ok?
    ensures var paths := InvalidValuePaths(lex, v, s).value;
            && StrictlySorted(PathLess, paths)
            && (forall p, q :: p in paths && q in paths ==> !(p < q))
            && (forall q :: q in paths ==> PresentAt(v, q) && DefectAt(lex, v, s, q) && !MeaningfulAt(lex, v, s, q))
            && ([] in paths || OnlyMissing(lex, Delete(v, [], paths), s))
  {
    var paths := InvalidValuePaths(lex, v, s).value;
    if !Violates(lex, v, s) {
      DeleteNothing(v, [], paths);
      CleanIsOnlyMissing(lex, v, s, true, 0);
    } else {
      var located := PathsIn(lex, v, s, []);
      MinimalPathsAre(located);
      forall q ensures q in paths <==> q in located {
        if q in located && exists i | 0 <= i < |located| :: located[i] < q {
          var i :| 0 <= i < |located| && located[i] < q;
          PathsAreIncomparable(lex, v, s, [], located[i], q);
        }
      }
      forall q | q in paths
        ensures PresentAt(v, q) && DefectAt(lex, v, s, q) && !MeaningfulAt(lex, v, s, q)
      {
        assert [] + q == q;
        LocatedIsDefect(lex, v, s, [], q);
        if MeaningfulAt(lex, v, s, q) {
          MeaningfulIsNoDefect(lex, v, s, q);
        }
      }
      if [] !in paths {
        PrunedIsOnlyMissing(lex, v, s, [], paths, true, 0);
      }
    }
  }
}
