/** Entity classification (`extract_medical_entities`): the affirmed
    entities of a named-entity-recognition response, split into medical and
    other terms by whether any of their types is a medical category.

    The medical categories are configuration that is loaded once; the model
    takes them as a parameter `categories`. */
module EntityClassification {
  import opened Errors

  /** An entity of the response. `status` is `meta_anns.Status.value`
      (`None` when a key on that path is missing), `types` its category
      labels (`None` when the key is missing); `prettyName` stands for the
      rest of the entity, which is stored but never inspected. */
  datatype Entity = Entity(status: Option<string>, types: Option<seq<string>>, prettyName: string)

  /** One dictionary from id to entity, in its iteration order. */
  type Annotation = seq<(string, Entity)>

  /** `medical_terms` and `other_terms`. */
  datatype Terms = Terms(medical: map<string, Entity>, other: map<string, Entity>)

  predicate IsAffirmed(e: Entity)
  {
    e.status == Some("Affirmed")
  }

  /** `any([t in MEDICAL_CATEGORIES for t in types])` */
  predicate HasMedicalType(types: seq<string>, categories: set<string>)
  {
    exists t | t in types :: t in categories
  }

  /** An entity for which the classification raises `KeyError`: its status
      is missing, or it is affirmed and its types are missing. */
  predicate Malformed(e: Entity)
  {
    e.status.None? || (IsAffirmed(e) && e.types.None?)
  }

  /** The (id, entity) pairs in the order the two nested loops visit them. */
  function Occurrences(annotations: seq<Annotation>): seq<(string, Entity)>
  {
    if annotations == [] then []
    else Occurrences(annotations[..|annotations| - 1]) + annotations[|annotations| - 1]
  }

  /** The body of the inner loop for one (id, entity) pair. */
  function Visit(t: Terms, key: string, e: Entity, categories: set<string>): Result<Terms>
  {
    match e.status
    case None => Err(KeyError("meta_anns.Status.value"))
    case Some(value) =>
      if value != "Affirmed" then Ok(t)
      else match e.types
        case None => Err(KeyError("types"))
        case Some(types) =>
          if HasMedicalType(types, categories) then Ok(t.(medical := t.medical[key := e]))
          else Ok(t.(other := t.other[key := e]))
  }

  /** The two maps after visiting `pairs` in order, or the first error. */
  function ClassifyPairs(pairs: seq<(string, Entity)>, categories: set<string>): Result<Terms>
  {
    if pairs == [] then Ok(Terms(map[], map[]))
    else
      match ClassifyPairs(pairs[..|pairs| - 1], categories)
      case Err(e) => Err(e)
      case Ok(t) => Visit(t, pairs[|pairs| - 1].0, pairs[|pairs| - 1].1, categories)
  }

  function Classify(annotations: seq<Annotation>, categories: set<string>): Result<Terms>
  {
    ClassifyPairs(Occurrences(annotations), categories)
  }

  /** `extract_medical_entities`, with its two nested loops. */
  method ExtractMedicalEntities(annotations: seq<Annotation>, categories: set<string>)
    returns (r: Result<Terms>)
    ensures r == Classify(annotations, categories)
  {
    var medical: map<string, Entity> := map[];
    var other: map<string, Entity> := map[];
    var i := 0;
    while i < |annotations|
      invariant 0 <= i <= |annotations|
      invariant ClassifyPairs(Occurrences(annotations[..i]), categories) == Ok(Terms(medical, other))
    {
      var annotation := annotations[i];
      ghost var done := Occurrences(annotations[..i]);
      var j := 0;
      assert done + annotation[..0] == done;
      while j < |annotation|
        invariant 0 <= j <= |annotation|
        invariant ClassifyPairs(done + annotation[..j], categories) == Ok(Terms(medical, other))
      {
        var (key, entity) := annotation[j];
        VisitStep(done, annotation, j, categories);
        if entity.status.None? {
          ErrorStops(annotations, i, j, categories);
          return Err(KeyError("meta_anns.Status.value"));
        }
        if entity.status.value == "Affirmed" {
          if entity.types.None? {
            ErrorStops(annotations, i, j, categories);
            return Err(KeyError("types"));
          }
          if HasMedicalType(entity.types.value, categories) {
            medical := medical[key := entity];
          } else {
            other := other[key := entity];
          }
        }
        j := j + 1;
      }
      assert annotation[..j] == annotation;
      OccurrencesStep(annotations, i);
      i := i + 1;
    }
    assert annotations[..i] == annotations;
    r := Ok(Terms(medical, other));
  }

  // ---------------------------------------------------------------------
  // Helper facts about the visiting order
  // ---------------------------------------------------------------------

  lemma {:induction false} OccurrencesAppend(a: seq<Annotation>, b: seq<Annotation>)
    ensures Occurrences(a + b) == Occurrences(a) + Occurrences(b)
    decreases |b|
  {
    if b == [] {
      assert a + b == a;
    } else {
      var n := |b| - 1;
      assert (a + b)[..|a + b| - 1] == a + b[..n];
      OccurrencesAppend(a, b[..n]);
    }
  }

  lemma OccurrencesSplit(annotations: seq<Annotation>, k: nat)
    requires k <= |annotations|
    ensures Occurrences(annotations) == Occurrences(annotations[..k]) + Occurrences(annotations[k..])
  {
    assert annotations == annotations[..k] + annotations[k..];
    OccurrencesAppend(annotations[..k], annotations[k..]);
  }

  lemma OccurrencesStep(annotations: seq<Annotation>, i: nat)
    requires i < |annotations|
    ensures Occurrences(annotations[..i + 1]) == Occurrences(annotations[..i]) + annotations[i]
  {
    assert annotations[..i + 1][..i] == annotations[..i];
  }

  /** Visiting one more pair of the current dictionary. */
  lemma VisitStep(done: seq<(string, Entity)>, annotation: Annotation, j: nat, categories: set<string>)
    requires j < |annotation|
    requires ClassifyPairs(done + annotation[..j], categories).Ok?
    ensures ClassifyPairs(done + annotation[..j + 1], categories) ==
      Visit(ClassifyPairs(done + annotation[..j], categories).value, annotation[j].0, annotation[j].1, categories)
  {
    assert (done + annotation[..j + 1])[..|done| + j] == done + annotation[..j];
  }

  /** A pair that raises ends the whole classification with its error. */
  lemma ErrorStops(annotations: seq<Annotation>, i: nat, j: nat, categories: set<string>)
    requires i < |annotations| && j < |annotations[i]|
    requires ClassifyPairs(Occurrences(annotations[..i]) + annotations[i][..j + 1], categories).Err?
    ensures Classify(annotations, categories) ==
      ClassifyPairs(Occurrences(annotations[..i]) + annotations[i][..j + 1], categories)
  {
    var annotation := annotations[i];
    var visited := Occurrences(annotations[..i]) + annotation[..j + 1];
    var rest := annotation[j + 1..] + Occurrences(annotations[i + 1..]);
    ErrorPersists(visited, rest, categories);
    OccurrencesSplit(annotations, i + 1);
    OccurrencesStep(annotations, i);
    assert annotation[..j + 1] + annotation[j + 1..] == annotation;
    assert visited + rest == Occurrences(annotations);
  }

  /** Once a pair raises, the pairs after it are never visited. */
  lemma {:induction false} ErrorPersists(p: seq<(string, Entity)>, q: seq<(string, Entity)>, categories: set<string>)
    requires ClassifyPairs(p, categories).Err?
    ensures ClassifyPairs(p + q, categories) == ClassifyPairs(p, categories)
    decreases |q|
  {
    if q == [] {
      assert p + q == p;
    } else {
      var n := |q| - 1;
      assert (p + q)[..|p + q| - 1] == p + q[..n];
      ErrorPersists(p, q[..n], categories);
    }
  }

  // ---------------------------------------------------------------------
  // Properties of the classification
  // ---------------------------------------------------------------------

  /** The entity of the last occurrence of `key` that is affirmed, has
      types, and is medical (`medical` true) or not (`medical` false). */
  function LastOccurrence(pairs: seq<(string, Entity)>, key: string, medical: bool,
                          categories: set<string>): Option<Entity>
  {
    if pairs == [] then None
    else
      var (k, e) := pairs[|pairs| - 1];
      if k == key && IsAffirmed(e) && e.types.Some? && HasMedicalType(e.types.value, categories) == medical
      then Some(e)
      else LastOccurrence(pairs[..|pairs| - 1], key, medical, categories)
  }

  /** The classification raises exactly when some visited entity lacks its
      status, or is affirmed and lacks its types. */
  lemma {:induction false} ClassifyErrorCases(pairs: seq<(string, Entity)>, categories: set<string>)
    ensures ClassifyPairs(pairs, categories).Err? <==>
      exists i :: 0 <= i < |pairs| && Malformed(pairs[i].1)
  {
    if pairs != [] {
      var n := |pairs| - 1;
      var prefix := pairs[..n];
      ClassifyErrorCases(prefix, categories);
      assert forall i :: 0 <= i < n ==> prefix[i] == pairs[i];
      if exists i :: 0 <= i < n && Malformed(prefix[i].1) {
        var i :| 0 <= i < n && Malformed(prefix[i].1);
        assert Malformed(pairs[i].1);
      }
    }
  }

  /** Each stored value is the last occurrence of its id that files into
      that map: `medical_terms[key]` is the last affirmed occurrence of `key`
      with a medical type, `other_terms[key]` the last affirmed occurrence
      without one, and an id is stored exactly when such an occurrence exists. */
  lemma {:induction false} ClassifyKeepsLastOccurrence(pairs: seq<(string, Entity)>, categories: set<string>)
    requires ClassifyPairs(pairs, categories).Ok?
    ensures forall key ::
      var t := ClassifyPairs(pairs, categories).value;
      && (key in t.medical <==> LastOccurrence(pairs, key, true, categories).Some?)
      && (key in t.medical ==> t.medical[key] == LastOccurrence(pairs, key, true, categories).value)
      && (key in t.other <==> LastOccurrence(pairs, key, false, categories).Some?)
      && (key in t.other ==> t.other[key] == LastOccurrence(pairs, key, false, categories).value)
  {
    if pairs != [] {
      var n := |pairs| - 1;
      ClassifyKeepsLastOccurrence(pairs[..n], categories);
    }
  }

  /** What `LastOccurrence` finds is an occurrence of that id, affirmed,
      and classified as asked; it finds something exactly when there is such
      an occurrence. */
  lemma {:induction false} LastOccurrenceFound(pairs: seq<(string, Entity)>, key: string, medical: bool,
                                               categories: set<string>)
    ensures LastOccurrence(pairs, key, medical, categories).Some? ==>
      var e := LastOccurrence(pairs, key, medical, categories).value;
      IsAffirmed(e) && e.types.Some? && HasMedicalType(e.types.value, categories) == medical
    ensures LastOccurrence(pairs, key, medical, categories).Some? <==>
      exists i :: 0 <= i < |pairs| && pairs[i].0 == key && IsAffirmed(pairs[i].1) &&
        pairs[i].1.types.Some? && HasMedicalType(pairs[i].1.types.value, categories) == medical
  {
    if pairs != [] {
      var n := |pairs| - 1;
      var prefix := pairs[..n];
      LastOccurrenceFound(prefix, key, medical, categories);
      assert forall i :: 0 <= i < n ==> prefix[i] == pairs[i];
      if exists i :: 0 <= i < n && prefix[i].0 == key && IsAffirmed(prefix[i].1) &&
          prefix[i].1.types.Some? && HasMedicalType(prefix[i].1.types.value, categories) == medical {
        var i :| 0 <= i < n && prefix[i].0 == key && IsAffirmed(prefix[i].1) &&
          prefix[i].1.types.Some? && HasMedicalType(prefix[i].1.types.value, categories) == medical;
        assert pairs[i] == prefix[i];
      }
    }
  }

  /** Only affirmed entities are stored; every medical term has a type in
      the medical categories and every other term has none. */
  lemma {:induction false} ClassifiedTermsAreAffirmed(pairs: seq<(string, Entity)>, categories: set<string>)
    requires ClassifyPairs(pairs, categories).Ok?
    ensures var t := ClassifyPairs(pairs, categories).value;
      && (forall key :: key in t.medical ==>
            IsAffirmed(t.medical[key]) && t.medical[key].types.Some? &&
            HasMedicalType(t.medical[key].types.value, categories))
      && (forall key :: key in t.other ==>
            IsAffirmed(t.other[key]) && t.other[key].types.Some? &&
            !HasMedicalType(t.other[key].types.value, categories))
  {
    var t := ClassifyPairs(pairs, categories).value;
    ClassifyKeepsLastOccurrence(pairs, categories);
    forall key | key in t.medical
      ensures IsAffirmed(t.medical[key]) && t.medical[key].types.Some? &&
        HasMedicalType(t.medical[key].types.value, categories)
    {
      LastOccurrenceFound(pairs, key, true, categories);
    }
    forall key | key in t.other
      ensures IsAffirmed(t.other[key]) && t.other[key].types.Some? &&
        !HasMedicalType(t.other[key].types.value, categories)
    {
      LastOccurrenceFound(pairs, key, false, categories);
    }
  }

  /** The ids of the two maps together are exactly the ids having at least
      one affirmed occurrence. */
  lemma {:induction false} ClassifiedKeysAreAffirmedKeys(pairs: seq<(string, Entity)>, categories: set<string>)
    requires ClassifyPairs(pairs, categories).Ok?
    ensures var t := ClassifyPairs(pairs, categories).value;
      t.medical.Keys + t.other.Keys ==
        set i | 0 <= i < |pairs| && IsAffirmed(pairs[i].1) :: pairs[i].0
  {
    var t := ClassifyPairs(pairs, categories).value;
    var affirmed := set i | 0 <= i < |pairs| && IsAffirmed(pairs[i].1) :: pairs[i].0;
    ClassifyKeepsLastOccurrence(pairs, categories);
    ClassifyErrorCases(pairs, categories);
    forall key ensures key in t.medical.Keys + t.other.Keys <==> key in affirmed {
      LastOccurrenceFound(pairs, key, true, categories);
      LastOccurrenceFound(pairs, key, false, categories);
      if key in affirmed {
        var i :| 0 <= i < |pairs| && IsAffirmed(pairs[i].1) && pairs[i].0 == key;
        assert !Malformed(pairs[i].1);
        assert pairs[i].1.types.Some?;
      }
    }
  }

  /** No id has affirmed occurrences that classify differently. */
  predicate ConsistentlyClassified(pairs: seq<(string, Entity)>, categories: set<string>)
  {
    forall i, j :: 0 <= i < |pairs| && 0 <= j < |pairs| && pairs[i].0 == pairs[j].0 &&
      IsAffirmed(pairs[i].1) && IsAffirmed(pairs[j].1) &&
      pairs[i].1.types.Some? && pairs[j].1.types.Some?
      ==> HasMedicalType(pairs[i].1.types.value, categories) == HasMedicalType(pairs[j].1.types.value, categories)
  }

  /** When no id classifies both ways, the two maps share no id. */
  lemma ClassifiedDisjoint(pairs: seq<(string, Entity)>, categories: set<string>)
    requires ClassifyPairs(pairs, categories).Ok?
    requires ConsistentlyClassified(pairs, categories)
    ensures var t := ClassifyPairs(pairs, categories).value;
      t.medical.Keys !! t.other.Keys
  {
    var t := ClassifyPairs(pairs, categories).value;
    ClassifyKeepsLastOccurrence(pairs, categories);
    forall key | key in t.medical && key in t.other ensures false {
      LastOccurrenceFound(pairs, key, true, categories);
      LastOccurrenceFound(pairs, key, false, categories);
    }
  }

  // ---------------------------------------------------------------------
  // Examples
  // ---------------------------------------------------------------------

  /** Without consistent classification the maps can overlap: one id that
      is affirmed once as a disease and once as a product is in both. */
  lemma OverlapWithoutConsistency()
    ensures var disease := Entity(Some("Affirmed"), Some(["Disease"]), "Diabetes");
      var product := Entity(Some("Affirmed"), Some(["Product"]), "Diabetes");
      var r := Classify([[("1", disease)], [("1", product)]], {"Disease"});
      r.Ok? && "1" in r.value.medical && "1" in r.value.other
  {
    var disease := Entity(Some("Affirmed"), Some(["Disease"]), "Diabetes");
    var product := Entity(Some("Affirmed"), Some(["Product"]), "Diabetes");
    var a := [[("1", disease)], [("1", product)]];
    assert a[..1] == [[("1", disease)]];
    assert a[..1][..0] == [];
    assert Occurrences(a[..1]) == [("1", disease)];
    assert Occurrences(a) == [("1", disease), ("1", product)];
    var pairs := [("1", disease), ("1", product)];
    assert pairs[..1] == [("1", disease)];
    assert pairs[..1][..0] == [];
    assert HasMedicalType(["Disease"], {"Disease"}) by {
      assert "Disease" in ["Disease"];
    }
    assert !HasMedicalType(["Product"], {"Disease"});
  }

  /** An affirmed disease is medical, an affirmed product is other, and an
      entity with another status is dropped. */
  lemma SplitsAffirmedEntities()
    ensures var diabetes := Entity(Some("Affirmed"), Some(["Disease"]), "Diabetes");
      var dataSet := Entity(Some("Affirmed"), Some(["Product"]), "Data Set");
      var documents := Entity(Some("Other"), Some(["Product"]), "Documents");
      Classify([[("1", diabetes), ("2", dataSet), ("3", documents)]], {"Disease"})
        == Ok(Terms(map["1" := diabetes], map["2" := dataSet]))
  {
    var diabetes := Entity(Some("Affirmed"), Some(["Disease"]), "Diabetes");
    var dataSet := Entity(Some("Affirmed"), Some(["Product"]), "Data Set");
    var documents := Entity(Some("Other"), Some(["Product"]), "Documents");
    var annotation := [("1", diabetes), ("2", dataSet), ("3", documents)];
    var a := [annotation];
    assert a[..0] == [];
    assert Occurrences(a) == annotation;
    assert annotation[..2] == [("1", diabetes), ("2", dataSet)];
    assert annotation[..2][..1] == [("1", diabetes)];
    assert annotation[..2][..1][..0] == [];
    assert HasMedicalType(["Disease"], {"Disease"}) by {
      assert "Disease" in ["Disease"];
    }
    assert !HasMedicalType(["Product"], {"Disease"});
    assert ClassifyPairs(annotation[..1], {"Disease"}) == Ok(Terms(map["1" := diabetes], map[]));
    assert ClassifyPairs(annotation[..2], {"Disease"}) == Ok(Terms(map["1" := diabetes], map["2" := dataSet]));
  }
}
