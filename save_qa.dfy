/** The loop of `save_qa_from_completions` (src/utils/utils.py) as it runs:
    `all_qa` grows one record at a time, and the call ends early when
    `item.get` raises. Creating the output directory, writing the file and
    logging are not part of this model. */
module SaveQa {
  import opened JsonValue
  import opened Normalize

  datatype Option<T> = None | Some(value: T)

  /** The inner `for item in data` loop: appends to `allQa` the record of
      every complete item, in order, or stops at the first item that is not
      a `dict` and reports its position. */
  method AppendItems(allQa: seq<Record>, items: seq<Json>) returns (grown: seq<Record>, raised: Option<nat>)
    ensures raised.Some? <==> ExtractItems(items).ItemsFailed?
    ensures raised.Some? ==> raised.value == ExtractItems(items).at
    ensures raised.None? ==> grown == allQa + ExtractItems(items).recs
  {
    grown := allQa;
    ghost var added: seq<Record> := [];
    for i := 0 to |items|
      invariant grown == allQa + added
      invariant ExtractItems(items[..i]) == ItemsDone(added)
    {
      var item := items[i];
      if !item.JObj? {
        // `item.get` raises AttributeError.
        assert items[..i + 1][..i] == items[..i];
        ExtractItemsFailedPersists(items, i + 1);
        return grown, Some(i);
      }
      ExtractItemsStep(items, i, added);
      var q := Get(item.fields, QuestionKey);
      var a := Get(item.fields, AnswerKey);
      if q != JNull && a != JNull {
        grown := grown + [Record(q, a)];
        added := added + [Record(q, a)];
      }
    }
    assert items[..|items|] == items;
    raised := None;
  }

  /** Walks the parsed blocks in order and builds `all_qa`; the result is
      exactly what `Extract` describes. */
  method SaveQaFromCompletions(qaJson: seq<ParseResult>) returns (outcome: Outcome)
    ensures outcome == Extract(qaJson)
  {
    var allQa: seq<Record> := [];
    for b := 0 to |qaJson|
      invariant Extract(qaJson[..b]) == Done(allQa)
    {
      if qaJson[b].Fail? {
        // The block is not valid JSON: skip it.
        ExtractStep(qaJson, b, allQa, []);
        continue;
      }
      var data := qaJson[b].value;
      if data.JObj? {
        data := JArr([data]);
      }
      if data.JArr? {
        ghost var items := BlockItems(qaJson[b]);
        assert data.elems == items;
        var grown, raised := AppendItems(allQa, data.elems);
        if raised.Some? {
          ExtractRaises(qaJson, b, allQa);
          return AttributeError(b, raised.value);
        }
        ExtractStep(qaJson, b, allQa, ExtractItems(items).recs);
        allQa := grown;
      } else {
        // A scalar: neither `isinstance` test fires.
        ExtractStep(qaJson, b, allQa, []);
      }
    }
    assert qaJson[..|qaJson|] == qaJson;
    outcome := Done(allQa);
  }
}
