# Kuzushiji dataset bookkeeping, in Dafny

This project models the dataset layer of a Kuzushiji (cursive historical Japanese) character
detection and classification pipeline, and proves properties of it. It covers:

- **`KuzushijiRecognitionDataset`**: which CSV table a split reads. `get_example` parses a page's
  `labels` string, made of whitespace-separated groups `unicode x y w h`, into the page's
  unicodes and an n x 4 array of corner boxes `(x1, y1, x2, y2)`. The boxes are stacked from the
  four coordinate columns and then shifted in place.
- **`KuzushijiUnicodeMapping`**: the class table read from `unicode_translation.csv`. Line k + 1
  is class k. It keeps three dictionaries (unicode to character, class to unicode, unicode to
  class) and the length of the first. Modelled as a class whose fields the loading loop updates.
- **`KuzushijiCharCropDataset`**: the split policy, where an empty name means 'trainval'. The
  per-class sample counts start as a table of ones that the `Counter` tally overwrites, class by
  class. `get_example` returns a copy of a record with `image` and `label` added.
- **`KuzushijiPseudoLabelsDataset`** (the fine-tuning script): the class of every record, then a
  histogram built from zeros, one increment per record.

How Python behaviour is represented:

- A raised exception is a `Failure` carrying an `Error` value. Every error case of the source is
  a branch of the model: unknown split, `int()` of a non-integer token, ragged columns, a line
  without exactly one comma, a missing dictionary key, an unknown unicode, an index past the end
  of a count table, and a list index out of range.
- `str.split()`, `str.strip()`, `str.split(',')`, `int()` and `str()` are written out in module
  `Text`.
- Negative list indices count from the end, as in Python (`Values.ListIndex`).
- Files and the image library are parameters, or values standing in for them:
  - `pd.read_csv` is a function from the chosen table to its rows.
  - `json.load` is the given records.
  - `readlines()` is the given lines.
  - `Image.open(path)` is the value `ImageFile(dir, name)`.

## Model

Source paths are relative to the repository root.

| member | source | states |
|---|---|---|
| KuzushijiDatasets.RecognitionCsv | kr/datasets/kuzushiji_recognition.py:30-33 | The page table is chosen as follows. `None` and 'trainval' select the raw `train.csv`, and only those do. 'train' and 'val' select their converted table. Any other name fails with `UnknownSplit`, because `csv_path` is never bound. |
| KuzushijiDatasets.CharCropSplit | kr/datasets/kuzushiji_recognition.py:98-99 | A falsy split (`None` or '') becomes 'trainval'. The name is accepted exactly when it is one of train, val and trainval, and it is then kept. Any other name fails the assertion. |
| KuzushijiDatasets.SplitPoliciesAgree | kr/datasets/kuzushiji_recognition.py:30-33 | The split policies of the two datasets (lines 30-33 and 98-99) accept the same names and select the same data. The only difference is '', which is an error for pages and 'trainval' for crops. |
| KuzushijiDatasets.LoadRecognition | kr/datasets/kuzushiji_recognition.py:30-36 | The constructor succeeds exactly when the split is known, and otherwise fails with that split's error. The table is the rows read from the chosen CSV, `len` is their number, and the image directory is `train_images`. |
| KuzushijiDatasets.RecognitionDataset.constructor | kr/datasets/kuzushiji_recognition.py:35-36 | Stores the table and the `train_images` directory. |
| KuzushijiDatasets.RecognitionDataset.Length | kr/datasets/kuzushiji_recognition.py:38-39 | `len(dataset)` is the number of rows: `get_example` accepts exactly the indices -n .. n-1. |
| KuzushijiDatasets.RecognitionDataset.GetExample | kr/datasets/kuzushiji_recognition.py:41-59 | An index outside -n .. n-1 fails. Otherwise the result succeeds exactly when the row's labels parse, and carries the same error when they do not. The image is the row's `<image_id>.jpg` in `train_images`. The unicodes are the parsed ones, and the rows of the n x 4 box array are the parsed corner boxes. |
| KuzushijiDatasets.LabelArrays | kr/datasets/kuzushiji_recognition.py:46-57 | The arrays built from a labels field agree with `ParseLabels`: the same success, error, unicodes and box rows. An absent field gives a 0 x 4 array. |
| KuzushijiDatasets.CornerArray | kr/datasets/kuzushiji_recognition.py:53-54 | Stacking four equal-length columns and shifting in place gives rows `(x, y, x + w, y + h)`. |
| KuzushijiLabels.StackColumns | kr/datasets/kuzushiji_recognition.py:53 | `np.transpose(np.array([x, y, w, h]))`: a fresh n x 4 array whose row i is `(x[i], y[i], w[i], h[i])`. |
| KuzushijiLabels.ToCorners | kr/datasets/kuzushiji_recognition.py:54 | In place, every row keeps columns 0-1 and adds them to columns 2-3. |
| KuzushijiLabels.ColumnPositions | kr/datasets/kuzushiji_recognition.py:48-52 | `tokens[j::5]` misses no token at a position congruent to j modulo 5: token p is its entry p / 5. Every entry comes from such a position. |
| KuzushijiLabels.ParseColumns | kr/datasets/kuzushiji_recognition.py:47-52 | The five columns shrink from left to right by at most one entry in all (`len(unicodes) <= len(h) + 1`). A failure is `NotAnInteger` of a token outside column 0 that `int()` rejects. |
| KuzushijiLabels.ToBoxes | kr/datasets/kuzushiji_recognition.py:53-54 | The boxes exist exactly when x, y, w and h have the same length, and otherwise the error is `RaggedColumns`. There is one box per row. Box i starts at `(x[i], y[i])`, and its width and height are `w[i]` and `h[i]`. |
| KuzushijiLabels.ParseLabels | kr/datasets/kuzushiji_recognition.py:46-57 | An absent labels field gives no unicodes and no boxes. A page has as many unicodes as boxes, or one more. The only errors are a non-integer token and ragged columns. |
| KuzushijiLabels.ParseInts | kr/datasets/kuzushiji_recognition.py:49-52 | The comprehension succeeds exactly when every token is an integer, and then holds their values in order. Otherwise it reports the first non-integer token of the column. |
| KuzushijiLabels.ParseColumnsShape | kr/datasets/kuzushiji_recognition.py:47-52 | The columns convert exactly when every coordinate token is an integer; otherwise the error is `NotAnInteger`. On success the unicodes are column 0, and entry i of x, y, w, h is `int` of tokens 5i+1 .. 5i+4. |
| KuzushijiLabels.ParseLabelsOfTokens | kr/datasets/kuzushiji_recognition.py:46-57 | A labels string parses exactly when its coordinate tokens are integers and it has 5k or 5k+1 tokens. A non-integer token is reported before ragged columns, and 5k+2 .. 5k+4 tokens are ragged. On success there are k boxes and k (or k+1) unicodes. Unicode i is token 5i, and box i is `(x, y, x + w, y + h)` from tokens 5i+1 .. 5i+4. |
| KuzushijiLabels.ParseLabelsOutcome | kr/datasets/kuzushiji_recognition.py:47-53 | Which of success, a non-integer token and ragged columns a token list leads to (both directions). |
| KuzushijiLabels.ParseLabelsContent | kr/datasets/kuzushiji_recognition.py:47-54 | For a token list that parses, gives the number of boxes and unicodes, which token each unicode is, and the box of each token group. |
| KuzushijiLabels.TokensRoundTrip | kr/datasets/kuzushiji_recognition.py:46-54 | A string whose tokens are those of a list of characters parses to those characters' unicodes and corner boxes. |
| KuzushijiLabels.FormatLabelsRoundTrip | kr/datasets/kuzushiji_recognition.py:46-54 | Round trip: writing characters as `unicode x y w h` groups and parsing gives back their unicodes and corner boxes in order. This holds whenever every unicode is a single whitespace-free token. |
| KuzushijiLabels.LabelTokensNumeric | kr/datasets/kuzushiji_recognition.py:49-52 | In the tokens of written characters, every coordinate token is an integer, column 0 is the unicodes, and token group i gives character i's corner box. |
| Text.Words | kr/datasets/kuzushiji_recognition.py:47 | `str.split()` yields only non-empty, whitespace-free tokens. |
| Text.WordsOfUnwords | kr/datasets/kuzushiji_recognition.py:47 | `str.split()` recovers exactly the tokens that were joined by spaces. |
| Text.FormatIntParses | kr/datasets/kuzushiji_recognition.py:49-52 | `int(str(n)) == n`, and `str(n)` is one token. |
| Text.SplitOn | kr/datasets/kuzushiji_recognition.py:76 | `s.split(',')` always yields at least one field; `''.split(',')` is `['']`. |
| Text.StripSlice | kr/datasets/kuzushiji_recognition.py:76 | `s.strip()` is a slice of `s` that neither starts nor ends with whitespace, and everything cut off on either side is whitespace. |
| Text.ParseIntTokens | kr/datasets/kuzushiji_recognition.py:49-52 | `int()` accepts every non-empty run of ASCII digits. A token it accepts holds only a sign, digits and underscores, so no whitespace, and its value is negative only after a leading '-'. |
| Text.SplitOnInverse | kr/datasets/kuzushiji_recognition.py:76 | `s.split(',')` has one field more than `s` has commas, no field holds a comma, and joining the fields with commas gives `s` back. |
| UnicodeTable.ParseEntry | kr/datasets/kuzushiji_recognition.py:76 | A stripped line unpacks into `uni, char` exactly when it has one comma; the two parts joined by that comma are the line. Otherwise the unpacking raises with the number of fields. |
| UnicodeTable.UnicodeMapping.constructor | kr/datasets/kuzushiji_recognition.py:68-70 | Three empty dictionaries, which satisfy the mapping's invariant. |
| UnicodeTable.UnicodeMapping.Insert | kr/datasets/kuzushiji_recognition.py:77-79 | The loop body: class i maps to the unicode, and the unicode maps to class i and to its character. A repeated unicode is overwritten. |
| UnicodeTable.AddKeepsConsistent | kr/datasets/kuzushiji_recognition.py:77-79 | One loop body keeps the three dictionaries consistent. |
| UnicodeTable.UnicodeMapping.Fill | kr/datasets/kuzushiji_recognition.py:75-79 | The loop over `lines[1:]` succeeds exactly when every line unpacks, and fails with the first malformed line's error. On success the dictionaries are those built from the lines in order. |
| UnicodeTable.Load | kr/datasets/kuzushiji_recognition.py:65-79 | The constructor succeeds exactly when every line after the header unpacks, and reports that error otherwise. On success the object satisfies the invariant and holds the dictionaries of those lines. |
| UnicodeTable.BuildTables | kr/datasets/kuzushiji_recognition.py:75-79 | The loop over the lines as a function: there is one class per line, and the classes are exactly 0 .. n-1. |
| UnicodeTable.BuildTablesConsistent | kr/datasets/kuzushiji_recognition.py:75-79 | The invariant holds after the loop. Classes are 0 .. n-1, and every unicode's class names that unicode. The two unicode-keyed dictionaries share their keys, and a class's unicode maps to that class or a later one. |
| UnicodeTable.IndexToUnicodeSpec | kr/datasets/kuzushiji_recognition.py:75-78 | There is one class per line: class k is the unicode of line k + 1. |
| UnicodeTable.UnicodeKeysSpec | kr/datasets/kuzushiji_recognition.py:75-79 | The unicode-keyed dictionaries hold exactly the unicodes some line names. |
| UnicodeTable.LaterLineWins | kr/datasets/kuzushiji_recognition.py:77-79 | A unicode maps to the last line naming it, and to that line's character; no later line names it. |
| UnicodeTable.UnicodeClass | kr/datasets/kuzushiji_recognition.py:77-79 | The unicode of line k + 1 has a class: a line at or after it naming the same unicode. |
| UnicodeTable.UnicodeRoundTrip | kr/datasets/kuzushiji_recognition.py:87-91 | `index_to_unicode(unicode_to_index(u)) == u` for every known unicode. |
| UnicodeTable.ClassRoundTrip | kr/datasets/kuzushiji_recognition.py:87-91 | Every class has a unicode with a class. `unicode_to_index(index_to_unicode(k)) == k` holds for every class exactly when no unicode is named twice. |
| UnicodeTable.UnicodeSetSize | kr/datasets/kuzushiji_recognition.py:81-82 | The lines name at most as many unicodes as there are lines, and exactly that many precisely when no unicode repeats. |
| UnicodeTable.LengthCountsUnicodes | kr/datasets/kuzushiji_recognition.py:81-82 | `len(mapping)` is the number of distinct unicodes. It equals the number of lines exactly when no unicode repeats, and is smaller otherwise. |
| UnicodeTable.IndicesBelowLength | kr/datasets/kuzushiji_recognition.py:81-91 | Every class handed out by `unicode_to_index` is below `len(mapping)` exactly when no unicode repeats. |
| UnicodeTable.UnicodeMapping.Length | kr/datasets/kuzushiji_recognition.py:81-82 | `len(mapping)`, the size of the unicode-to-character dictionary, is the number of unicodes that have a class. |
| UnicodeTable.UnicodeMapping.UnicodeToIndex | kr/datasets/kuzushiji_recognition.py:90-91 | The lookup fails exactly when no class has the unicode. Otherwise it returns a class in 0 .. n-1 that has the unicode. |
| UnicodeTable.UnicodeMapping.IndexToUnicode | kr/datasets/kuzushiji_recognition.py:87-88 | The lookup succeeds exactly for 0 <= k < n. The unicode it returns maps back to k or a later class. |
| UnicodeTable.UnicodeMapping.UnicodeToChar | kr/datasets/kuzushiji_recognition.py:84-85 | The character lookup succeeds exactly for the unicodes that have a class. |
| Values.ListIndex | kr/datasets/kuzushiji_recognition.py:116 | `data[i]` is defined exactly for -n <= i < n. The position it picks is below n and congruent to i modulo n. |
| Values.Collect | scripts/finetune_classifier.py:47-49 | A list comprehension whose steps may raise succeeds exactly when every step does, and then holds every step's value in order. |
| Values.CollectFailure | scripts/finetune_classifier.py:47-49 | A failed comprehension reports the error of its first failing step. |
| Values.CollectFirstFailure | scripts/finetune_classifier.py:47-49 | When the first failing step is step i, the comprehension reports step i's error. |
| KuzushijiDatasets.LabelOf | kr/datasets/kuzushiji_recognition.py:119 | On success, `unicode_to_index(d['unicode'])` returns a class whose unicode is the record's. That class maps back to itself and is the last such class. A missing key gives `MissingKey`; otherwise failure means no class has the record's unicode. |
| KuzushijiDatasets.Labels | scripts/finetune_classifier.py:47-49 | `all_labels` exists exactly when every record has a class, and it holds each record's class in order. Otherwise the error is that of the first record without one. |
| KuzushijiDatasets.ClassifiedIff | kr/datasets/kuzushiji_recognition.py:106-110 | Every record has a class inside a table of n counts exactly when all labels exist and are below n. |
| KuzushijiDatasets.CopyWithLabel | kr/datasets/kuzushiji_recognition.py:116-120 | The copy succeeds exactly when the record has a string `image_path` and a unicode with a class. The path error is reported first, then the lookup error. The result is the record plus `image` and `label`, with every other key unchanged. |
| KuzushijiDatasets.UnicodeValues | kr/datasets/kuzushiji_recognition.py:107 | `[d['unicode'] for d in data]` exists exactly when every record has the key, and holds the values in order. |
| KuzushijiDatasets.TallyCounts | kr/datasets/kuzushiji_recognition.py:107 | `Counter(values)[v]` is the number of positions of `values` that hold `v`, and `v` is a key exactly when there is at least one. |
| KuzushijiDatasets.FillStep | kr/datasets/kuzushiji_recognition.py:109-110 | One turn of the loop writes a unicode's tally into its class and keeps the loop invariant. |
| KuzushijiDatasets.FillCounts | kr/datasets/kuzushiji_recognition.py:106-110 | The loop succeeds exactly when every tallied unicode has a class below `len(mapping)`; otherwise it reports some offending unicode's error. The table has `len(mapping)` entries. A class gets its unicode's tally if that unicode maps back to it, and 1 otherwise. |
| KuzushijiDatasets.TallyFilled | kr/datasets/kuzushiji_recognition.py:107-110 | The finished table, read through the tally: each class holds its unicode's number of occurrences, or 1. |
| KuzushijiDatasets.LabelsOfValues | kr/datasets/kuzushiji_recognition.py:107-110 | When every record has a class in the table, the labels exist, are below n, and each names the record's unicode. |
| KuzushijiDatasets.FlooredFromTally | kr/datasets/kuzushiji_recognition.py:106-110 | The table the loop leaves is the histogram of the records' classes with every zero raised to 1. |
| KuzushijiDatasets.TallyClasses | kr/datasets/kuzushiji_recognition.py:107-110 | The tallied unicodes all have a class in the table exactly when every record does. Each tallied unicode's outcome is that of some record. |
| KuzushijiDatasets.CountFloored | kr/datasets/kuzushiji_recognition.py:106-110 | `num_samples` exists exactly when every record has a class below `len(mapping)`. A record without a unicode fails with `MissingKey` first; any other error is some record's. On success the table is the histogram of the classes, floored at 1. |
| KuzushijiDatasets.CharCropDataset.constructor | kr/datasets/kuzushiji_recognition.py:101-104 | Stores the directory, records, mapping and count table. |
| KuzushijiDatasets.CharCropDataset.Length | kr/datasets/kuzushiji_recognition.py:112-113 | `len(dataset)` is the number of records: `get_example` accepts exactly the indices -n .. n-1. |
| KuzushijiDatasets.CharCropDataset.GetExample | kr/datasets/kuzushiji_recognition.py:115-120 | An index outside -n .. n-1 fails, and a record without a string image path fails with that error. Otherwise the result is a copy of record i with its image and its label, and the label is entry i of the records' classes. |
| KuzushijiDatasets.LoadCharCrop | kr/datasets/kuzushiji_recognition.py:97-110 | The constructor succeeds exactly when the split is allowed, the table loads, and every record has a class below `len(mapping)`. Split errors come first, then table errors. When the count table fails, a record without a unicode gives `MissingKey`, and otherwise the error is the class lookup error of some record. On success the dataset satisfies its invariant, and it holds the split's records and the loaded mapping. |
| Counts.CountOf | kr/datasets/kuzushiji_recognition.py:107 | A value occurs a positive number of times exactly when it is in the list, and never more often than the list is long. |
| Counts.HistogramSnoc | scripts/finetune_classifier.py:52-53 | One more label adds one to its class and leaves every other class unchanged. |
| Counts.HistogramSum | scripts/finetune_classifier.py:51-53 | The histogram of in-range labels adds up to the number of labels. |
| Counts.FlooredSum | kr/datasets/kuzushiji_recognition.py:106-110 | Raising every zero to 1 adds the number of empty classes to the total. |
| Counts.CountTablesCompared | kr/datasets/kuzushiji_recognition.py:106-110 | The two count tables compared. The pseudo-label histogram sums to the number of labels. The char-crop table sums to that plus the number of empty classes, and every entry is at least 1. An entry equals the histogram's exactly when the class has a record. |
| FinetuneClassifier.BuildHistogram | scripts/finetune_classifier.py:51-53 | The loop succeeds exactly when every label is below n, and then leaves the histogram of the labels. Otherwise it stops at the first label past the table with `ClassOutOfRange`. |
| FinetuneClassifier.PseudoLabelsDataset.constructor | scripts/finetune_classifier.py:42-53 | Stores the directory, records, mapping, labels and counts. |
| FinetuneClassifier.PseudoLabelsDataset.Length | scripts/finetune_classifier.py:55-56 | `len(dataset)` is the number of records: `get_example` accepts exactly the indices -n .. n-1. |
| FinetuneClassifier.PseudoLabelsDataset.GetExample | scripts/finetune_classifier.py:58-63 | An index outside -n .. n-1 fails, and a record without a string image path fails with that error. Otherwise the result is a copy of record i with its image and `all_labels[i]` as label. |
| FinetuneClassifier.LoadPseudoLabels | scripts/finetune_classifier.py:38-53 | The constructor succeeds exactly when the table loads and every record has a class below `len(mapping)`. Errors come in source order: the table, the first record without a class, then the first label past the table. On success `all_labels` holds the classes of the records and the invariant holds. |
| FinetuneClassifier.PseudoLabelCountsSum | scripts/finetune_classifier.py:51-53 | The pseudo-label counts add up to `len(dataset)`. |
| FinetuneClassifier.CharCropCountsSum | kr/datasets/kuzushiji_recognition.py:106-110 | The char-crop counts add up to `len(dataset)` plus the number of classes without a record, and each count is at least 1. |

## Left out

- Reading files (`pd.read_csv`, `json.load`, `readlines`) and decoding images (`Image.open`) are
  not modelled. Their results are parameters, and an image is the value naming its file.
- The existence assertion on the data directory at `kuzushiji_recognition.py:26` depends on the
  file system and is not modelled.
- `KuzushijiTestImages` (`kuzushiji_recognition.py:123-140`) lists a directory and is not
  modelled.
- `int()` on non-ASCII digits and surrounding whitespace: `ParseInt` accepts an optional sign
  and ASCII digits, with single underscores between digits. Tokens from `str.split()` carry no
  whitespace.
- Integer widths (`np.int32` counts, the platform width of the box array) are unbounded
  integers. A count or coordinate past 2^31 - 1 does not wrap.
- KuzushijiDatasets.FillCounts: `Counter.most_common()` visits unicodes in an order that is not
  modelled. The table on success does not depend on it. On failure the contract names some
  offending unicode, not the one Python would report first.
- KuzushijiDatasets.CountFloored: inherits that gap from the loop. On failure the contract
  names the lookup error of some record, not the one Python would report first.
- KuzushijiDatasets.LoadCharCrop: inherits the same gap when the count table fails.
- `Counter` of an unhashable `unicode` value (a list or dict in the JSON) would raise
  `TypeError`. Values are always hashable here.
- The exact exception type for ragged columns depends on the numpy version (`ValueError` or an
  object array failing at line 54). Both are the single `RaggedColumns` error.
- `np.empty((0, 4), dtype=np.int)` at line 57 fails with newer numpy releases, which removed
  `np.int`. The model gives the intended 0 x 4 array.
- A check that a page has one box per unicode: the code makes none. With 5k + 1 tokens,
  `labels[0::5]` has one entry more than the four coordinate columns, which still stack
  cleanly, so the page gets one unicode more than boxes. The model follows the code
  (`KuzushijiLabels.ParseLabelsOfTokens`, `KuzushijiLabels.ParseLabels`).
- The training and inference scripts (argument parsing, models, optimisers, transforms,
  samplers) are not part of this model.
- The heatmap detector's encoder and decoder are not part of this model.
