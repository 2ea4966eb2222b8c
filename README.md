# QA-Generation: record extraction from model completions

This project models the record-extraction loop of `save_qa_from_completions`
in the QA-Generation repository (`src/utils/utils.py`). The generation
provider returns its `qa_json` output as a list of raw text blocks, each
expected to hold a JSON array of `{"question", "answer"}` objects. The loop
parses each block, wraps a lone object into a one-element list, and keeps the
items whose `question` and `answer` are both present and not `null`, building
one flat, ordered list of records (`all_qa`).

Files:

- `json_value.dfy` (module `JsonValue`): decoded JSON values, the outcome of
  `json.loads` on one block (`Fail` or `Parsed(value)`), and `dict.get`.
- `normalize.dfy` (module `Normalize`): the records, the call's outcome
  (`Done(records)` or `AttributeError(block, item)`), the specification
  function `Extract` that follows the loop block by block, an independent
  reference description (`KeepComplete` of `Flatten`, all items at once), and
  `ExtractMeaning`, which proves the two agree.
- `save_qa.dfy` (module `SaveQa`): the loop itself, as two methods. The outer
  `for` loop over the blocks is `SaveQaFromCompletions`; the inner loop over
  one block's items is `AppendItems`, which appends to `allQa`. Both are
  proved equal to the specification functions.
- `properties.dfy` (module `NormalizeProperties`): the guarantees of the
  loop, proved about `Extract`.

Decisions:

- `json.loads` is not modelled. Each block arrives already parsed, or marked
  as a decode failure.
- Python's `None` is `JNull`. `dict.get` returns `JNull` both for a missing
  key and for an explicit `null`, so `is not None` cannot tell them apart.
- The values of `question` and `answer` are copied unchanged and may be any
  JSON value. An empty string, `0`, `false` or `[]` is kept, because the test
  is `is not None` rather than truthiness.
- A list element that is not a `dict` makes `item.get` raise
  `AttributeError`. This aborts the whole call, so nothing is saved. The
  model returns `AttributeError(block, item)` with the position of the first
  such element. Malformed output therefore does not always degrade to fewer
  records: one non-`dict` element of a list block discards every record
  already collected, and no file is written.

## Model

| member | source | states |
|---|---|---|
| `SaveQa.SaveQaFromCompletions` | src/utils/utils.py:14-33 | The outer loop (skip a failed parse, wrap a dict, hand a list to the inner loop, ignore a scalar) returns exactly `Extract` of the blocks. |
| `SaveQa.AppendItems` | src/utils/utils.py:28-33 | The inner loop over one block's items raises exactly when `ExtractItems` fails, at the same position; otherwise it appends exactly the records `ExtractItems` keeps to `allQa`. |
| `JsonValue.Get` | src/utils/utils.py:30-31 | `dict.get(key)`: a present key gives its stored value, a missing key gives `JNull` (Python `None`); a non-null result is the value stored under that key. |
| `Normalize.BlockItems` | src/utils/utils.py:18-28 | The items one block hands to the inner loop: none for a failed parse or a scalar, a one-element list for a lone dict, the elements of a list. Outside the list case every item is a dict. |
| `Normalize.Complete` | src/utils/utils.py:30-32 | An item yields a record iff it is a dict in which both keys are present and neither value is `null`. |
| `Normalize.RecordOf` | src/utils/utils.py:30-33 | The record of a dict copies the two values unchanged; both are non-null exactly when the dict is complete. |
| `Normalize.RecordDict` | src/utils/utils.py:33 | The appended dict has exactly the keys `question` and `answer`; it is complete iff both values are non-null, and then it gives back the same record. |
| `Normalize.Extract` | src/utils/utils.py:17-33 | Block-by-block outcome; when it raises, the reported position is a real item of that block and that item is not a dict. |
| `Normalize.ExtractItems` | src/utils/utils.py:29-33 | Inner loop over one block's items: on failure, the position is the first non-dict item; on success, every item is a dict and at most one record is kept per item. |
| `Normalize.KeepComplete` | src/utils/utils.py:30-33 | Reference filter: at most one record per item, and every record has a non-null question and answer. |
| `Normalize.ExtractItemsMeaning` | src/utils/utils.py:28-33 | The inner loop succeeds iff every item is a dict, and then keeps exactly the records of the complete items, in order. |
| `Normalize.ExtractMeaning` | src/utils/utils.py:14-33 | The call succeeds iff every item of every block is a dict, and then returns the records of all complete items in block order, then item order. |
| `Normalize.ExtractErrorIsFirst` | src/utils/utils.py:29-30 | The error is raised at the first non-dict item: all items of earlier blocks, and all earlier items of its block, are dicts. |
| `Normalize.ExtractRaises` | src/utils/utils.py:28-30 | When all earlier blocks succeeded and a block's items raise, the call ends with that block's error, whatever follows. |
| `Normalize.ExtractErrorPersists` | src/utils/utils.py:17-30 | Once a block raises, later blocks do not change the outcome. |
| `NormalizeProperties.ExtractAppend` | src/utils/utils.py:17-33 | Blocks are independent: the records of `a + b` are the records of `a` followed by those of `b`. |
| `NormalizeProperties.FailBlockSkipped` | src/utils/utils.py:18-22 | A block that fails to parse adds no records and does not stop later blocks: the result is the same as without it. |
| `NormalizeProperties.SameItemsSameOutcome` | src/utils/utils.py:24-28 | The outcome depends only on the item list each block yields. |
| `NormalizeProperties.SingleObjectAsList` | src/utils/utils.py:25-26 | A block holding one dict gives the same outcome as a list holding just that dict. |
| `NormalizeProperties.ScalarBlockAsFail` | src/utils/utils.py:25-28 | A block that parses to a number, string, boolean or null behaves like a failed parse: no records and no error. |
| `NormalizeProperties.ErrorOnlyFromList` | src/utils/utils.py:25-30 | Only a block that parsed to a list can raise. A failed parse, a scalar or a lone dict never does. |
| `NormalizeProperties.NoItemsNoRecords` | src/utils/utils.py:14-22 | An empty block list, or one whose blocks all failed or are scalars, yields an empty record list and no error. |
| `NormalizeProperties.NonObjectItemRaises` | src/utils/utils.py:29-30 | Any non-dict element of any list block makes the whole call fail. |
| `NormalizeProperties.OrderPreserved` | src/utils/utils.py:17-33 | The records are a subsequence of all items in block and item order. Each is copied unchanged from a complete item, both values are non-null, and there are at most as many records as items. |
| `NormalizeProperties.CompleteItemKept` | src/utils/utils.py:30-33 | Conversely, every complete item's record appears in the output. |
| `NormalizeProperties.KeepCompleteSubsequence` | src/utils/utils.py:29-33 | The filter keeps records at strictly increasing item positions, each copied from a complete item. |
| `NormalizeProperties.AllCompleteItems` | src/utils/utils.py:28-33 | The inner loop over items that are all complete keeps one record per item, each copied from its item, in order. |
| `NormalizeProperties.AllCompleteList` | src/utils/utils.py:28-33 | A list of N dicts that all have non-null question and answer appends exactly those N records, in order, after the earlier records. |
| `NormalizeProperties.SavedDictsReload` | src/utils/utils.py:33-38 | Records whose two values are non-null, written as a list of `{"question", "answer"}` dicts and read back as one block, extract to themselves. |
| `NormalizeProperties.ReloadSaved` | src/utils/utils.py:33-38 | The saved list of dicts, read back as one block, gives the same outcome as the call that produced it. Output dicts carry only these two keys. |

## Left out

- Creating the output directory, opening and writing `qa.json`, logging, and
  the returned path (src/utils/utils.py:12, 21, 35-41). These are I/O. The
  call's result is modelled as the record list it would write, or the error.
- `json.loads` itself (src/utils/utils.py:19). It is a library call; the
  model takes its result as input. Only `JSONDecodeError` is caught by the
  source; parse errors that escape it and end the call are not modelled: a
  block that is neither `str` nor `bytes`/`bytearray` (`TypeError`), one
  nested deeply enough to raise `RecursionError`, an integer literal longer
  than Python's integer-to-string digit limit (`ValueError`, 4300 digits by
  default), and bytes that cannot be decoded (`UnicodeDecodeError`).
- JSON numbers are `real` values. The difference between Python `int` and
  `float` does not affect the loop. `json.loads` also accepts `NaN`,
  `Infinity` and `-Infinity`, which `JNum` cannot hold. Such a value is not
  `None`, so the source copies it into a record like any other value. Duplicate object keys are resolved by the
  parser before the loop sees them.
- `src/core/qa_generator.py` is not part of this model. It resolves a file
  path, reads the context and calls an external provider. Its only logic is
  defaulting the question count, where a requested count of 0 also falls
  back to the default.
- `src/core/model_signature.py` is not part of this model. It reads and
  renders a template with an external processor and sets a class docstring.
- `src/optimizers/metric_optimizer.py` is not part of this model. It averages
  two opaque, embedding-based floating-point scores and formats a feedback
  string. It also uses `qa_to_json`, which is not defined in the
  `src/utils/utils.py` shown.
