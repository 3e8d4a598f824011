/** The batch route (`index_datasets_bulk`) without its transport: for the
    bulk recognition response, one classification per response element,
    appended in order. The recognition call itself is not modelled; its
    response is an input. */
module BatchIndexing {
  import opened Errors
  import opened EntityClassification

  /** The `medical_terms` and `other_terms` lists of the batch response. */
  datatype BulkTerms = BulkTerms(medical: seq<map<string, Entity>>, other: seq<map<string, Entity>>)

  /** The classification loop of `index_datasets_bulk`: element `i` of
      each output list is the classification of response element `i`. A
      response element whose classification raises ends the batch with that
      error. */
  method IndexDatasetsBulk(responses: seq<seq<Annotation>>, categories: set<string>)
    returns (r: Result<BulkTerms>)
    ensures r.Ok? <==> forall i :: 0 <= i < |responses| ==> Classify(responses[i], categories).Ok?
    ensures r.Ok? ==> |r.value.medical| == |responses| && |r.value.other| == |responses|
    ensures r.Ok? ==> forall i :: 0 <= i < |responses| ==>
      Classify(responses[i], categories) == Ok(Terms(r.value.medical[i], r.value.other[i]))
    ensures r.Err? ==> exists i :: (0 <= i < |responses| &&
      Classify(responses[i], categories) == Err(r.error) &&
      forall k :: 0 <= k < i ==> Classify(responses[k], categories).Ok?)
  {
    var medical: seq<map<string, Entity>> := [];
    var other: seq<map<string, Entity>> := [];
    var i := 0;
    while i < |responses|
      invariant 0 <= i <= |responses|
      invariant |medical| == i && |other| == i
      invariant forall k :: 0 <= k < i ==>
        Classify(responses[k], categories) == Ok(Terms(medical[k], other[k]))
    {
      var result := ExtractMedicalEntities(responses[i], categories);
      if result.Err? {
        return Err(result.error);
      }
      medical := medical + [result.value.medical];
      other := other + [result.value.other];
      i := i + 1;
    }
    r := Ok(BulkTerms(medical, other));
  }
}
