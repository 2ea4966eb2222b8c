/** What the extraction loop guarantees, proved about `Extract` through its
    characterisation `ExtractMeaning`. */
module NormalizeProperties {
  import opened JsonValue
  import opened Normalize

  // ---- facts about the reference definition ----

  /** The positions of the complete items, in increasing order. */
  ghost function KeptAt(items: seq<Json>): seq<nat>
  {
    if items == [] then []
    else
      var rest := KeptAt(items[1..]);
      (if Complete(items[0]) then [0] else []) + seq(|rest|, k requires 0 <= k < |rest| => rest[k] + 1)
  }

  lemma {:induction false} KeptAtLength(items: seq<Json>)
    ensures |KeptAt(items)| == |KeepComplete(items)|
  {
    if items != [] {
      KeptAtLength(items[1..]);
    }
  }

  /** The `k`-th record kept is copied from the complete item at position `KeptAt(items)[k]`. */
  lemma {:induction false} KeptAtContent(items: seq<Json>, k: nat)
    requires k < |KeptAt(items)|
    ensures KeptAt(items)[k] < |items| && Complete(items[KeptAt(items)[k]])
    ensures |KeptAt(items)| == |KeepComplete(items)|
    ensures KeepComplete(items)[k] == RecordOf(items[KeptAt(items)[k]])
  {
    KeptAtLength(items);
    var tail := items[1..];
    var rest := KeptAt(tail);
    if Complete(items[0]) {
      assert KeepComplete(items) == [RecordOf(items[0])] + KeepComplete(tail);
      if k > 0 {
        KeptAtContent(tail, k - 1);
        assert KeptAt(items)[k] == rest[k - 1] + 1;
        assert items[rest[k - 1] + 1] == tail[rest[k - 1]];
      }
    } else {
      assert KeepComplete(items) == KeepComplete(tail);
      KeptAtContent(tail, k);
      assert KeptAt(items)[k] == rest[k] + 1;
      assert items[rest[k] + 1] == tail[rest[k]];
    }
  }

  lemma {:induction false} KeptAtIncreasing(items: seq<Json>)
    ensures forall k, l :: 0 <= k < l < |KeptAt(items)| ==> KeptAt(items)[k] < KeptAt(items)[l]
  {
    if items != [] {
      KeptAtIncreasing(items[1..]);
    }
  }

  /** The records kept are the complete items, in order: each record sits at
      an increasing position of the item list and is copied from that item. */
  lemma {:induction false} KeepCompleteSubsequence(items: seq<Json>) returns (idx: seq<nat>)
    ensures |idx| == |KeepComplete(items)|
    ensures forall k :: 0 <= k < |idx| ==>
              idx[k] < |items| && Complete(items[idx[k]]) && KeepComplete(items)[k] == RecordOf(items[idx[k]])
    ensures forall k, l :: 0 <= k < l < |idx| ==> idx[k] < idx[l]
  {
    KeptAtLength(items);
    KeptAtIncreasing(items);
    idx := KeptAt(items);
    forall k | 0 <= k < |idx|
      ensures idx[k] < |items| && Complete(items[idx[k]]) && KeepComplete(items)[k] == RecordOf(items[idx[k]])
    {
      KeptAtContent(items, k);
    }
  }

  /** Conversely, every complete item yields its record. */
  lemma {:induction false} KeepCompleteKeeps(items: seq<Json>, i: nat)
    requires i < |items| && Complete(items[i])
    ensures RecordOf(items[i]) in KeepComplete(items)
  {
    if i > 0 {
      KeepCompleteKeeps(items[1..], i - 1);
    }
  }

  /** When every item is complete, nothing is dropped and nothing reordered. */
  lemma {:induction false} KeepCompleteAll(xs: seq<Json>)
    requires forall i :: 0 <= i < |xs| ==> Complete(xs[i])
    ensures |KeepComplete(xs)| == |xs|
    ensures forall i :: 0 <= i < |xs| ==> xs[i].JObj? && KeepComplete(xs)[i] == RecordOf(xs[i])
  {
    if xs != [] {
      KeepCompleteAll(xs[1..]);
    }
  }

  // ---- properties of the extraction ----

  /** Blocks are processed independently and their records concatenated in block order. */
  lemma {:induction false} ExtractAppend(a: seq<ParseResult>, b: seq<ParseResult>)
    requires Extract(a).Done? && Extract(b).Done?
    ensures Extract(a + b) == Done(Extract(a).records + Extract(b).records)
  {
    ExtractMeaning(a);
    ExtractMeaning(b);
    ExtractMeaning(a + b);
    FlattenAppend(a, b);
    AllObjectsAppend(Flatten(a), Flatten(b));
    KeepCompleteAppend(Flatten(a), Flatten(b));
  }

  /** A block that fails to parse adds nothing and does not stop the loop:
      the blocks around it give the same records as without it. */
  lemma {:induction false} FailBlockSkipped(pre: seq<ParseResult>, post: seq<ParseResult>)
    ensures Extract(pre + [Fail] + post).Done? <==> Extract(pre + post).Done?
    ensures Extract(pre + post).Done? ==> Extract(pre + [Fail] + post).records == Extract(pre + post).records
  {
    var withFail := pre + [Fail] + post;
    assert Flatten(withFail) == Flatten(pre + post) by {
      assert Flatten([Fail]) == [] by { assert [Fail][1..] == []; }
      FlattenAppend(pre + [Fail], post);
      FlattenAppend(pre, [Fail]);
      FlattenAppend(pre, post);
      assert Flatten(pre + [Fail]) == Flatten(pre);
    }
    ExtractMeaning(withFail);
    ExtractMeaning(pre + post);
  }

  /** Only the items a block hands to the inner loop matter, not how it was parsed. */
  lemma {:induction false} SameItemsSameOutcome(a: seq<ParseResult>, b: seq<ParseResult>)
    requires |a| == |b|
    requires forall i :: 0 <= i < |a| ==> BlockItems(a[i]) == BlockItems(b[i])
    ensures Extract(a) == Extract(b)
  {
    if a != [] {
      SameItemsSameOutcome(a[..|a| - 1], b[..|b| - 1]);
    }
  }

  /** A block holding a single `dict` behaves as a list holding just that `dict`. */
  lemma {:induction false} SingleObjectAsList(pre: seq<ParseResult>, m: map<string, Json>, post: seq<ParseResult>)
    ensures Extract(pre + [Parsed(JObj(m))] + post) == Extract(pre + [Parsed(JArr([JObj(m)]))] + post)
  {
    var a, b := pre + [Parsed(JObj(m))] + post, pre + [Parsed(JArr([JObj(m)]))] + post;
    forall i | 0 <= i < |a| ensures BlockItems(a[i]) == BlockItems(b[i]) {
      if i != |pre| {
        assert a[i] == b[i];
      }
    }
    SameItemsSameOutcome(a, b);
  }

  /** A block that parses to a number, string, boolean or `null` behaves as a
      block that failed to parse: no records and no error. */
  lemma {:induction false} ScalarBlockAsFail(pre: seq<ParseResult>, v: Json, post: seq<ParseResult>)
    requires IsScalar(v)
    ensures Extract(pre + [Parsed(v)] + post) == Extract(pre + [Fail] + post)
  {
    var a, b := pre + [Parsed(v)] + post, pre + [Fail] + post;
    forall i | 0 <= i < |a| ensures BlockItems(a[i]) == BlockItems(b[i]) {
      if i != |pre| {
        assert a[i] == b[i];
      }
    }
    SameItemsSameOutcome(a, b);
  }

  /** Only a block that parsed to a list can make the call raise: a decode
      failure, a scalar or a single `dict` never does. */
  lemma {:induction false} ErrorOnlyFromList(blocks: seq<ParseResult>)
    requires Extract(blocks).AttributeError?
    ensures blocks[Extract(blocks).block].Parsed? && blocks[Extract(blocks).block].value.JArr?
  {
    // Follows from the postcondition of `Extract`: a lone dict yields only dict items.
  }

  /** No items, no records and no error: an empty block list, or one whose
      every block failed to parse or is a scalar. */
  lemma {:induction false} NoItemsNoRecords(blocks: seq<ParseResult>)
    requires forall i :: 0 <= i < |blocks| ==> BlockItems(blocks[i]) == []
    ensures Extract(blocks) == Done([])
  {
    if blocks != [] {
      NoItemsNoRecords(blocks[..|blocks| - 1]);
    }
  }

  /** Any item, of any block, that is not a `dict` makes the whole call fail. */
  lemma {:induction false} NonObjectItemRaises(blocks: seq<ParseResult>, i: nat)
    requires i < |Flatten(blocks)| && !Flatten(blocks)[i].JObj?
    ensures Extract(blocks).AttributeError?
  {
    ExtractMeaning(blocks);
  }

  /** Every record written has a non-null question and answer copied from a
      complete item, in the order of the items; there are at most as many
      records as items. */
  lemma {:induction false} OrderPreserved(blocks: seq<ParseResult>) returns (idx: seq<nat>)
    requires Extract(blocks).Done?
    ensures |Extract(blocks).records| <= |Flatten(blocks)|
    ensures |idx| == |Extract(blocks).records|
    ensures forall k :: 0 <= k < |idx| ==>
              idx[k] < |Flatten(blocks)| && Complete(Flatten(blocks)[idx[k]]) &&
              Extract(blocks).records[k] == RecordOf(Flatten(blocks)[idx[k]])
    ensures forall k, l :: 0 <= k < l < |idx| ==> idx[k] < idx[l]
    ensures forall r :: r in Extract(blocks).records ==> r.question != JNull && r.answer != JNull
  {
    ExtractMeaning(blocks);
    idx := KeepCompleteSubsequence(Flatten(blocks));
  }

  /** Nothing complete is lost: every complete item's record is written. */
  lemma {:induction false} CompleteItemKept(blocks: seq<ParseResult>, i: nat)
    requires Extract(blocks).Done?
    requires i < |Flatten(blocks)| && Complete(Flatten(blocks)[i])
    ensures RecordOf(Flatten(blocks)[i]) in Extract(blocks).records
  {
    ExtractMeaning(blocks);
    KeepCompleteKeeps(Flatten(blocks), i);
  }

  /** The inner loop over N complete `dict`s keeps exactly their N records, in order. */
  lemma {:induction false} AllCompleteItems(xs: seq<Json>)
    requires forall i :: 0 <= i < |xs| ==> Complete(xs[i])
    ensures ExtractItems(xs).ItemsDone? && |ExtractItems(xs).recs| == |xs|
    ensures forall i :: 0 <= i < |xs| ==> xs[i].JObj? && ExtractItems(xs).recs[i] == RecordOf(xs[i])
  {
    assert AllObjects(xs);
    ExtractItemsMeaning(xs);
    KeepCompleteAll(xs);
  }

  /** A list of N `dict`s, each with a non-null question and answer, yields
      exactly those N records in their order, after the earlier blocks' records. */
  lemma {:induction false} AllCompleteList(pre: seq<ParseResult>, xs: seq<Json>)
    requires Extract(pre).Done?
    requires forall i :: 0 <= i < |xs| ==> Complete(xs[i])
    ensures var o := Extract(pre + [Parsed(JArr(xs))]);
            o.Done? && |o.records| == |Extract(pre).records| + |xs| &&
            o.records[..|Extract(pre).records|] == Extract(pre).records &&
            forall i :: 0 <= i < |xs| ==> o.records[|Extract(pre).records| + i] == RecordOf(xs[i])
  {
    AllCompleteItems(xs);
    ExtractSnoc(pre, Parsed(JArr(xs)));
  }

  /** What the call writes to its output file: one `{"question", "answer"}`
      dict per collected record, in order. */
  function SavedDicts(rs: seq<Record>): seq<Json>
  {
    seq(|rs|, i requires 0 <= i < |rs| => RecordDict(rs[i]))
  }

  /** A saved dict whose record has both fields set is complete and gives
      back that record. */
  lemma {:induction false} SavedDictReads(rs: seq<Record>, i: nat)
    requires i < |rs| && rs[i].question != JNull && rs[i].answer != JNull
    ensures |SavedDicts(rs)| == |rs|
    ensures Complete(SavedDicts(rs)[i]) && RecordOf(SavedDicts(rs)[i]) == rs[i]
  {
  }

  /** The inner loop over the saved dicts of records that have both fields
      set collects those records again. */
  lemma {:induction false} SavedDictsItems(rs: seq<Record>)
    requires forall r :: r in rs ==> r.question != JNull && r.answer != JNull
    ensures ExtractItems(SavedDicts(rs)) == ItemsDone(rs)
  {
    var dicts := SavedDicts(rs);
    forall i | 0 <= i < |dicts| ensures Complete(dicts[i]) && RecordOf(dicts[i]) == rs[i] {
      assert rs[i] in rs;
      SavedDictReads(rs, i);
    }
    AllCompleteItems(dicts);
    assert ExtractItems(dicts).recs == rs;
  }

  /** The saved dicts of records that have both fields set, parsed as one
      block, extract to those records. */
  lemma {:induction false} SavedDictsReload(rs: seq<Record>)
    requires forall r :: r in rs ==> r.question != JNull && r.answer != JNull
    ensures Extract([Parsed(JArr(SavedDicts(rs)))]) == Done(rs)
  {
    SavedDictsItems(rs);
    ExtractSnoc([], Parsed(JArr(SavedDicts(rs))));
    assert [] + [Parsed(JArr(SavedDicts(rs)))] == [Parsed(JArr(SavedDicts(rs)))];
  }

  /** Reading back what was saved gives the same records: the saved list of
      dicts, parsed as one block, extracts to the records it was written from. */
  lemma {:induction false} ReloadSaved(blocks: seq<ParseResult>)
    requires Extract(blocks).Done?
    ensures Extract([Parsed(JArr(SavedDicts(Extract(blocks).records)))]) == Extract(blocks)
  {
    ExtractMeaning(blocks);
    SavedDictsReload(Extract(blocks).records);
  }
}
