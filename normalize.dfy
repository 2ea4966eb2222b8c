/** The record-extraction loop of `save_qa_from_completions`
    (src/utils/utils.py), stated as functions over already-parsed blocks.

    `Extract` follows the loop block by block, the way the loop grows
    `all_qa`; `KeepComplete` over `Flatten` is an independent, list-at-a-time
    description of the same result, and `ExtractMeaning` proves the two agree. */
module Normalize {
  import opened JsonValue

  /** The two keys read from each item and written to each record. */
  const QuestionKey: string := "question"
  const AnswerKey: string := "answer"

  /** One saved pair: the dict `{"question": q, "answer": a}`. Only these two
      keys survive; the values are copied unchanged and need not be strings. */
  datatype Record = Record(question: Json, answer: Json)

  /** The result of one call: the records written, or the `AttributeError`
      raised by `item.get` on the `item`-th element of block `block`. */
  datatype Outcome =
    | Done(records: seq<Record>)
    | AttributeError(block: nat, item: nat)

  /** The result of the inner loop over one block's items. */
  datatype ItemsOutcome =
    | ItemsDone(recs: seq<Record>)
    | ItemsFailed(at: nat)

  /** The items a block hands to the inner loop: a `dict` is wrapped into a
      one-element list, a `list` gives its elements, and a decode failure or a
      scalar (neither `isinstance` test fires) gives none. */
  function BlockItems(p: ParseResult): (items: seq<Json>)
    ensures p.Fail? || IsScalar(p.value) ==> items == []
    ensures p.Parsed? && p.value.JObj? ==> items == [p.value]
    ensures p.Parsed? && p.value.JArr? ==> items == p.value.elems
    ensures !(p.Parsed? && p.value.JArr?) ==> AllObjects(items)
  {
    match p
    case Fail => []
    case Parsed(v) =>
      match v
      case JObj(_) => [v]
      case JArr(xs) => xs
      case _ => []
  }

  /** An item that yields a record: a `dict` whose `question` and `answer`
      are both present and not `null`. */
  predicate Complete(item: Json)
    ensures Complete(item) <==>
              item.JObj? && QuestionKey in item.fields && AnswerKey in item.fields &&
              item.fields[QuestionKey] != JNull && item.fields[AnswerKey] != JNull
  {
    item.JObj? && Get(item.fields, QuestionKey) != JNull && Get(item.fields, AnswerKey) != JNull
  }

  /** The record built from a `dict` item. */
  function RecordOf(item: Json): (r: Record)
    requires item.JObj?
    ensures Complete(item) ==> r.question == item.fields[QuestionKey] && r.answer == item.fields[AnswerKey]
    ensures Complete(item) <==> r.question != JNull && r.answer != JNull
  {
    Record(Get(item.fields, QuestionKey), Get(item.fields, AnswerKey))
  }

  predicate AllObjects(items: seq<Json>)
  {
    forall i :: 0 <= i < |items| ==> items[i].JObj?
  }

  /** The inner loop over one block's items, item by item: it stops at the
      first item that is not a `dict`, and otherwise appends the record of
      every complete item. */
  function ExtractItems(items: seq<Json>): (o: ItemsOutcome)
    ensures o.ItemsFailed? ==> o.at < |items| && !items[o.at].JObj? && AllObjects(items[..o.at])
    ensures o.ItemsDone? ==> AllObjects(items) && |o.recs| <= |items|
  {
    if items == [] then ItemsDone([])
    else
      var last := items[|items| - 1];
      match ExtractItems(items[..|items| - 1])
      case ItemsFailed(j) => ItemsFailed(j)
      case ItemsDone(rs) =>
        if !last.JObj? then ItemsFailed(|items| - 1)
        else if Complete(last) then ItemsDone(rs + [RecordOf(last)])
        else ItemsDone(rs)
  }

  /** The outer loop over the blocks, block by block: once an item raised,
      the call is over; otherwise each block's records are appended in order. */
  function Extract(blocks: seq<ParseResult>): (o: Outcome)
    ensures o.AttributeError? ==>
              o.block < |blocks| && o.item < |BlockItems(blocks[o.block])| &&
              !BlockItems(blocks[o.block])[o.item].JObj?
  {
    if blocks == [] then Done([])
    else
      match Extract(blocks[..|blocks| - 1])
      case AttributeError(k, j) => AttributeError(k, j)
      case Done(rs) =>
        match ExtractItems(BlockItems(blocks[|blocks| - 1]))
        case ItemsFailed(j) => AttributeError(|blocks| - 1, j)
        case ItemsDone(more) => Done(rs + more)
  }

  /** The dict `{"question": q, "answer": a}` appended for a record, as the
      saved file holds it. */
  function RecordDict(r: Record): (d: Json)
    ensures d.JObj? && d.fields.Keys == {QuestionKey, AnswerKey}
    ensures Complete(d) <==> r.question != JNull && r.answer != JNull
    ensures Complete(d) ==> RecordOf(d) == r
  {
    JObj(map[QuestionKey := r.question, AnswerKey := r.answer])
  }

  /** Reference definition: every item of every block, in block order, then item order. */
  function Flatten(blocks: seq<ParseResult>): seq<Json>
  {
    if blocks == [] then [] else BlockItems(blocks[0]) + Flatten(blocks[1..])
  }

  /** Reference definition: the records of the complete items, in order. */
  function KeepComplete(items: seq<Json>): (rs: seq<Record>)
    ensures |rs| <= |items|
    ensures forall r :: r in rs ==> r.question != JNull && r.answer != JNull
  {
    if items == [] then []
    else (if Complete(items[0]) then [RecordOf(items[0])] else []) + KeepComplete(items[1..])
  }

  lemma {:induction false} FlattenAppend(a: seq<ParseResult>, b: seq<ParseResult>)
    ensures Flatten(a + b) == Flatten(a) + Flatten(b)
  {
    if a != [] {
      assert (a + b)[1..] == a[1..] + b;
      FlattenAppend(a[1..], b);
    } else {
      assert a + b == b;
    }
  }

  lemma {:induction false} KeepCompleteAppend(a: seq<Json>, b: seq<Json>)
    ensures KeepComplete(a + b) == KeepComplete(a) + KeepComplete(b)
  {
    if a != [] {
      assert (a + b)[1..] == a[1..] + b;
      KeepCompleteAppend(a[1..], b);
    } else {
      assert a + b == b;
    }
  }

  /** The inner loop fails exactly when some item is not a `dict`, and
      otherwise keeps precisely the complete items. */
  lemma {:induction false} ExtractItemsMeaning(items: seq<Json>)
    ensures ExtractItems(items).ItemsDone? <==> AllObjects(items)
    ensures ExtractItems(items).ItemsDone? ==> ExtractItems(items).recs == KeepComplete(items)
  {
    if items != [] {
      var init, last := items[..|items| - 1], items[|items| - 1];
      assert items == init + [last];
      ExtractItemsMeaning(init);
      KeepCompleteAppend(init, [last]);
      assert KeepComplete([last]) == (if Complete(last) then [RecordOf(last)] else []) by {
        assert [last][1..] == [];
      }
    }
  }

  lemma {:induction false} AllObjectsAppend(a: seq<Json>, b: seq<Json>)
    ensures AllObjects(a + b) <==> AllObjects(a) && AllObjects(b)
  {
    if AllObjects(a) && AllObjects(b) {
      forall i | 0 <= i < |a + b| ensures (a + b)[i].JObj? {
        if i >= |a| { assert (a + b)[i] == b[i - |a|]; }
      }
    }
    if AllObjects(a + b) {
      forall i | 0 <= i < |a| ensures a[i].JObj? {
        assert a[i] == (a + b)[i];
      }
      forall i | 0 <= i < |b| ensures b[i].JObj? {
        assert b[i] == (a + b)[|a| + i];
      }
    }
  }

  /** The main characterisation: the call fails exactly when some item of
      some block is not a `dict`; otherwise it returns the records of the
      complete items of all blocks, in block order and then item order. */
  lemma {:induction false} ExtractMeaning(blocks: seq<ParseResult>)
    ensures Extract(blocks).Done? <==> AllObjects(Flatten(blocks))
    ensures Extract(blocks).Done? ==> Extract(blocks).records == KeepComplete(Flatten(blocks))
  {
    if blocks != [] {
      var init, last := blocks[..|blocks| - 1], blocks[|blocks| - 1];
      var xs := BlockItems(last);
      assert Flatten(blocks) == Flatten(init) + xs by {
        assert blocks == init + [last];
        FlattenAppend(init, [last]);
        assert [last][1..] == [];
      }
      ExtractMeaning(init);
      ExtractItemsMeaning(xs);
      AllObjectsAppend(Flatten(init), xs);
      if Extract(init).Done? && ExtractItems(xs).ItemsDone? {
        KeepCompleteAppend(Flatten(init), xs);
      }
    }
  }

  /** The error reported is the first non-`dict` item: every item of the
      earlier blocks, and every earlier item of its own block, is a `dict`. */
  lemma {:induction false} ExtractErrorIsFirst(blocks: seq<ParseResult>)
    requires Extract(blocks).AttributeError?
    ensures AllObjects(Flatten(blocks[..Extract(blocks).block]))
    ensures AllObjects(BlockItems(blocks[Extract(blocks).block])[..Extract(blocks).item])
  {
    var init, last := blocks[..|blocks| - 1], blocks[|blocks| - 1];
    assert init == blocks[..|blocks| - 1];
    if Extract(init).AttributeError? {
      ExtractErrorIsFirst(init);
      assert init[..Extract(init).block] == blocks[..Extract(blocks).block];
    } else {
      ExtractMeaning(init);
    }
  }

  /** One more block processed after the blocks `blocks[..b]`, its items all `dict`s. */
  lemma {:induction false} ExtractStep(blocks: seq<ParseResult>, b: nat, rs: seq<Record>, more: seq<Record>)
    requires b < |blocks| && Extract(blocks[..b]) == Done(rs)
    requires ExtractItems(BlockItems(blocks[b])) == ItemsDone(more)
    ensures Extract(blocks[..b + 1]) == Done(rs + more)
  {
    assert blocks[..b + 1][..b] == blocks[..b];
  }

  /** A block appended after blocks that did not raise. */
  lemma {:induction false} ExtractSnoc(pre: seq<ParseResult>, p: ParseResult)
    requires Extract(pre).Done? && ExtractItems(BlockItems(p)).ItemsDone?
    ensures Extract(pre + [p]) == Done(Extract(pre).records + ExtractItems(BlockItems(p)).recs)
  {
    assert (pre + [p])[..|pre|] == pre;
  }

  /** One more item processed after the items `items[..i]`, that item a `dict`. */
  lemma {:induction false} ExtractItemsStep(items: seq<Json>, i: nat, rs: seq<Record>)
    requires i < |items| && ExtractItems(items[..i]) == ItemsDone(rs) && items[i].JObj?
    ensures ExtractItems(items[..i + 1]) ==
              if Complete(items[i]) then ItemsDone(rs + [RecordOf(items[i])]) else ItemsDone(rs)
  {
    assert items[..i + 1][..i] == items[..i];
  }

  /** A block whose items raise decides the whole call. */
  lemma {:induction false} ExtractRaises(blocks: seq<ParseResult>, b: nat, rs: seq<Record>)
    requires b < |blocks| && Extract(blocks[..b]) == Done(rs)
    requires ExtractItems(BlockItems(blocks[b])).ItemsFailed?
    ensures Extract(blocks) == AttributeError(b, ExtractItems(BlockItems(blocks[b])).at)
  {
    ExtractPrefixRaises(blocks, b, rs);
    ExtractErrorPersists(blocks, b + 1);
  }

  /** The prefix that ends with a raising block ends in that block's error. */
  lemma {:induction false} ExtractPrefixRaises(blocks: seq<ParseResult>, b: nat, rs: seq<Record>)
    requires b < |blocks| && Extract(blocks[..b]) == Done(rs)
    requires ExtractItems(BlockItems(blocks[b])).ItemsFailed?
    ensures Extract(blocks[..b + 1]) == AttributeError(b, ExtractItems(BlockItems(blocks[b])).at)
  {
    assert blocks[..b + 1][..b] == blocks[..b];
  }

  /** Once the inner loop has failed on a prefix, the rest of the block does not matter. */
  lemma {:induction false} ExtractItemsFailedPersists(items: seq<Json>, n: nat)
    requires n <= |items| && ExtractItems(items[..n]).ItemsFailed?
    ensures ExtractItems(items) == ExtractItems(items[..n])
  {
    if n < |items| {
      var init := items[..|items| - 1];
      assert init[..n] == items[..n];
      ExtractItemsFailedPersists(init, n);
    } else {
      assert items[..n] == items;
    }
  }

  /** Once a block has raised, later blocks are never looked at. */
  lemma {:induction false} ExtractErrorPersists(blocks: seq<ParseResult>, n: nat)
    requires n <= |blocks| && Extract(blocks[..n]).AttributeError?
    ensures Extract(blocks) == Extract(blocks[..n])
  {
    if n < |blocks| {
      var init := blocks[..|blocks| - 1];
      assert init[..n] == blocks[..n];
      ExtractErrorPersists(init, n);
    } else {
      assert blocks[..n] == blocks;
    }
  }
}
