# valid_reader — a verified model in Dafny

This project models `valid_reader`, the validation-data reader of a ColBERT-style dense
retrieval trainer. When it is built, the reader loads three things:

- the (query id, positive passage id, negative passage id) triples of its shard. Line `i` of
  the triples file belongs to shard `rank` when `i % nranks == rank`;
- a queries table built from `id<TAB>text` lines;
- a passage collection built from `id<TAB>passage<TAB>title[<TAB>...]` lines. Each passage
  is stored as `title | passage`.

It then works as a forward-only iterator. Each `__next__` moves the cursor one triple
forward and looks up the triple's three ids. It hands the three texts, as one-element
batches with batch size 1, to the tokenizing tensorizer.

Files and modules:

- `types.dfy`, module `Types`: `Option`, `Result`, the `Failure` exceptions, `Triple` and
  `Entry`. ZeroDivisionError, KeyError, StopIteration and AssertionError are Python's
  exceptions of those names. The other three name a cause that Python reports with a more
  general exception:
  - UnpackError is the ValueError raised when unpacking a tab-split line at
    `valid_reader.py` lines 50 and 70.
  - IntError is the ValueError from `int()` at lines 51 and 77.
  - TripleDecodeError is the decoder's ValueError, or the TypeError or ValueError raised
    when unpacking the decoded value at line 37.
- `pytext.dfy`, module `PyText`: the Python string operations the loaders use.
  - `str.strip()` strips every character for which `str.isspace()` holds.
  - `str.split('\t')` is modelled with its inverse `Join`.
  - `int()` accepts surrounding whitespace, an optional sign, and ASCII digits with single
    underscores between them. The whitespace it skips is narrower than `str.strip()`'s.
    It is ASCII space, `\t`, `\n`, `\v`, `\f` and `\r`, plus the non-ASCII `isspace()`
    characters such as U+00A0. The separators U+001C..U+001F are never skipped, even though
    `isspace()` holds for them. So `int("5\x1c")` and `int("\xa05\x1c")` are rejected,
    while `int("\xa05\xa0")` gives 5.
- `loaders.dfy`, module `Loaders`: `_load_triples`, `_load_queries` and `_load_collection`.
  Each is a loop over the already-read lines, proved equal to a specification function.
  The properties are proved about those functions: which lines a shard keeps, that the
  shards partition the file, and that a later duplicate id wins.
- `reading.dfy`, module `Reading`: the class `ValidReader`. It holds `triples`, `queries`,
  `collection`, the tensorizer and the mutable `position`. It provides `__len__`,
  `__next__` and `collate`. `Open` models `__init__`.

Modelling choices:

- Python's `%` is floor modulo (`PyMod`). With `nranks == 0`, `_load_triples` raises
  ZeroDivisionError on the first line, so an empty file still loads.
- `ujson.loads` is a parameter `decode: string -> Option<Triple>`. It is applied only to the
  lines the shard keeps, so a malformed line in another rank's shard does not stop this
  rank.
- `line.strip()` also removes tabs at the ends of a line. A collection line whose title
  field is empty (`7\tfoo\t\n`) therefore has two fields and fails to unpack. The model
  keeps this behaviour.
- The cursor moves before the ids are looked up. A triple whose id is missing raises
  KeyError only when the iteration reaches it, and the cursor has already moved past it.
  `Open` never checks references.
- The code unpacks exactly two fields from a queries line and at least three from a
  collection line. The model follows the code.

## Model

| member | source | states |
|---|---|---|
| PyText.StripInfix | Code/dense/ColBERT/src/colbert/training/valid_reader.py:50 | the stripped line is an infix of the line with only whitespace cut from both ends, and it neither starts nor ends with whitespace |
| PyText.StripFramed | Code/dense/ColBERT/src/colbert/training/valid_reader.py:70 | stripping text that has whitespace around it, such as the newline, gives back text that neither starts nor ends with whitespace |
| PyText.Split | Code/dense/ColBERT/src/colbert/training/valid_reader.py:50 | splitting on tab gives at least one field, no field contains a tab, and joining the fields with tabs gives the line back |
| PyText.SplitJoin | Code/dense/ColBERT/src/colbert/training/valid_reader.py:70 | splitting tab-joined fields that contain no tab gives exactly those fields |
| PyText.ParseInt | Code/dense/ColBERT/src/colbert/training/valid_reader.py:51 | a string `int()` accepts holds only the whitespace `int()` skips (never U+001C..U+001F), signs, underscores and ASCII digits; the same parser serves `int(pid)` at line 77 |
| PyText.ParseShow | Code/dense/ColBERT/src/colbert/training/valid_reader.py:51 | `int()` of an integer's decimal spelling, with any whitespace other than U+001C..U+001F around it, gives that integer back |
| PyText.IntSpacingExample | Code/dense/ColBERT/src/colbert/training/valid_reader.py:51 | `int()` rejects `5` followed by U+001C, whether or not a non-ASCII space (U+00A0) is also in the string, and gives 5 for `5` between two U+00A0 |
| Loaders.KeptIndices | Code/dense/ColBERT/src/colbert/training/valid_reader.py:35-36 | the indices a rank keeps are in increasing order, and an index is among them exactly when it is below the line count and `index % nranks == rank` under Python's floor modulo |
| Loaders.ShardSelects | Code/dense/ColBERT/src/colbert/training/valid_reader.py:35-38 | the shard is the lines at the kept indices, in file order: the k-th kept line is the line at the k-th kept index, and the lengths agree |
| Loaders.ShardWhole | Code/dense/ColBERT/src/colbert/training/valid_reader.py:11 | with the default `rank=0, nranks=1`, the shard is every line of the file, in order |
| Loaders.ShardsPartition | Code/dense/ColBERT/src/colbert/training/valid_reader.py:35-36 | for `nranks > 0`, each line index is kept by exactly one rank (`i % nranks`), and the lengths of the shards of ranks `0..nranks-1` add up to the line count. Together with `ShardSelects`, every line lands in exactly one shard |
| Loaders.DecodeAll | Code/dense/ColBERT/src/colbert/training/valid_reader.py:37-38 | decoding the kept lines succeeds exactly when every kept line decodes. The triples then come in the order of their lines, and otherwise the error is the decoder's |
| Loaders.LoadTriples | Code/dense/ColBERT/src/colbert/training/valid_reader.py:32-41 | the loop's result equals `LoadedTriples`: the empty file gives no triples, `nranks == 0` on a non-empty file raises ZeroDivisionError, and otherwise the result is the decoded shard |
| Loaders.QueryEntry | Code/dense/ColBERT/src/colbert/training/valid_reader.py:50-52 | when a queries line parses, the stripped line is the id field, one tab, then the stored text, and the text has no tab |
| Loaders.QueryLine | Code/dense/ColBERT/src/colbert/training/valid_reader.py:50-52 | a line `str(id) + TAB + text` with whitespace around it parses to that id and text, for any tab-free text that does not end in whitespace |
| Loaders.QueryExample | Code/dense/ColBERT/src/colbert/training/valid_reader.py:50-52 | the line `1<TAB>hello world` stores `hello world` under id 1 |
| Loaders.SeparatorIdExample | Code/dense/ColBERT/src/colbert/training/valid_reader.py:50-51 | the queries line `5`, U+001C, U+00A0, TAB, `foo` strips and splits into the id field `5`+U+001C+U+00A0 and `foo`, and `int()` of that id field raises ValueError |
| Loaders.TabulateOutcome | Code/dense/ColBERT/src/colbert/training/valid_reader.py:46-52 | building a table succeeds exactly when every line parses. On failure, the error is the one from the first line that does not parse |
| Loaders.TabulateFailsEarly | Code/dense/ColBERT/src/colbert/training/valid_reader.py:49-51 | once a prefix of the file fails to load, the whole file fails with the same error, whatever follows |
| Loaders.TabulateLookup | Code/dense/ColBERT/src/colbert/training/valid_reader.py:52 | when every line parses, the load succeeds, an id is in the table exactly when some line carries it, and it maps to the text of the last such line |
| Loaders.LoadQueries | Code/dense/ColBERT/src/colbert/training/valid_reader.py:43-54 | the loop's result equals `Tabulate` of the lines with `QueryEntry`: strip, split on tab, unpack exactly two fields, then `int` of the id. The first failing line's exception ends the load |
| Loaders.LoadCollection | Code/dense/ColBERT/src/colbert/training/valid_reader.py:59-79 | the loop's result equals `Tabulate` of the lines with `PassageEntry`: at least three fields, the rest ignored, and `title \| passage` stored under `int(pid)`. The first failing line's exception ends the load |
| Loaders.PassageLine | Code/dense/ColBERT/src/colbert/training/valid_reader.py:70-77 | tab-joined fields `str(id)`, passage, title and any extra fields, with whitespace around them, store `title \| passage` under id |
| Loaders.PassageExample | Code/dense/ColBERT/src/colbert/training/valid_reader.py:70-77 | the line `7<TAB>foo<TAB>Bar` stores `Bar \| foo` under id 7 |
| Reading.Collate | Code/dense/ColBERT/src/colbert/training/valid_reader.py:108-113 | collation succeeds exactly when all three batches hold one element. It then returns the tensorizer's output for batch size 1, and otherwise raises AssertionError |
| Reading.Step | Code/dense/ColBERT/src/colbert/training/valid_reader.py:87-106 | one `__next__` from cursor `pos` moves the cursor to `pos + 1`, or leaves it at the end. It raises StopIteration exactly at the end and never trips collate's assertion. Otherwise it returns the tensorizer applied to `[queries[q]]`, `[collection[pos]]`, `[collection[neg]]`, or KeyError for the first missing id in that order |
| Reading.RunOutcomes | Code/dense/ColBERT/src/colbert/training/valid_reader.py:87-93 | over `k` calls from cursor `pos`, the cursor ends at `min(pos + k, len)`. Call `i` raises StopIteration exactly when `pos + i >= len`, and otherwise gives the outcome of `Step` at cursor `pos + i`, even after an earlier KeyError. From a fresh reader, each triple is visited once, in order, and StopIteration repeats forever after |
| Reading.ReadOneTriple | Code/dense/ColBERT/src/colbert/training/valid_reader.py:19-21 | triples `[1, 10, 20]`, queries `1<TAB>hello world` and a collection with ids 10 and 20 load. The first call then tensorizes `["hello world"]` with the two passages at batch size 1, and the second raises StopIteration |
| Reading.ValidReader.constructor | Code/dense/ColBERT/src/colbert/training/valid_reader.py:17-21 | a new reader holds the loaded tables and the tensorizer, with its cursor at 0 |
| Reading.ValidReader.Len | Code/dense/ColBERT/src/colbert/training/valid_reader.py:84-85 | `__len__` is the number of triples in the shard, whatever the cursor |
| Reading.ValidReader.LenCountsCalls | Code/dense/ColBERT/src/colbert/training/valid_reader.py:84-93 | from the current cursor, call `i` of `__next__` raises StopIteration exactly when `i >= len(reader) - position`. So a fresh reader yields exactly `len(reader)` outcomes before StopIteration |
| Reading.ValidReader.Next | Code/dense/ColBERT/src/colbert/training/valid_reader.py:87-106 | `__next__` changes only `position`, keeps `position <= len(triples)`, and gives the new cursor and outcome that `Step` specifies |
| Reading.Open | Code/dense/ColBERT/src/colbert/training/valid_reader.py:11-21 | construction loads the triples, then the queries, then the collection. It fails with the first loader's exception. Otherwise it yields a fresh reader holding exactly the three loaded values, with its cursor at 0. `rank` and `nranks` default to 0 and 1, as in Python |

## Left out

- Opening and reading the three files is not modelled. Each loader takes the file's lines as
  `seq<string>`. A missing file and text-mode newline translation are outside the model.
- `ujson.loads` is a foreign JSON library. It is the parameter `decode`. Any way a kept line
  can fail to become three ids (bad JSON, wrong arity, a non-iterable value) is the single
  error TripleDecodeError.
- `QueryTokenizer`, `DocTokenizer` and `tensorize_triples` are external tokenization and
  tensor code. They are one opaque function, `Tensorizer`, and the model relies only on its
  arguments. The `query_maxlen` and `doc_maxlen` settings are not modelled.
- Reading.Step: exceptions raised inside the tokenizers or `tensorize_triples` are not
  modelled. `Tensorizer` is total, so `Step` succeeds whenever all three ids are present.
- `print_message` and the `Run` logging only print status messages, so they are not
  modelled.
- The commented-out `skip_to_batch` is dead code with no behaviour, so it is not modelled.
- `__iter__` only returns the reader itself, so the reader is its own iterator. It has no
  separate member.
- PyText.ParseInt: rejects the non-ASCII Unicode decimal digits that Python's `int()`
  accepts. Ids in these files are ASCII.
- PyText.ParseInt: does not model the 4300-digit limit that Python 3.11 and later place on
  `int()` of a decimal string. Longer ids are accepted here but raise ValueError there.
- Exception messages are not modelled. Only the exception kind, and the key for KeyError,
  are kept.
