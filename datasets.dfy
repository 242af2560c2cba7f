/**
 * The dataset classes of kr/datasets/kuzushiji_recognition.py: which file a split reads,
 * `KuzushijiRecognitionDataset` (one page per table row), and `KuzushijiCharCropDataset` (one
 * cropped character per annotation record, with a per-class sample count), together with the
 * record copy both character datasets hand out.
 */
module KuzushijiDatasets {
  import opened Wrappers
  import opened Text
  import opened Counts
  import opened Values
  import opened KuzushijiLabels
  import opened UnicodeTable

  // ---------------------------------------------------------------- split selection

  /** The CSV table a recognition dataset reads. */
  datatype CsvSource =
    /** `kuzushiji-recognition/train.csv`, the competition's own table. */
    | RawTrain
    /** `kuzushiji-recognition-converted/<split>.csv`, one half of the converted data. */
    | Converted(split: string)

  /** The split names the converted data has. */
  const ConvertedSplits: set<string> := {"train", "val", "trainval"}

  /**
   * `KuzushijiRecognitionDataset(split)`: `None` and 'trainval' read the raw table, 'train' and
   * 'val' their converted table; any other name leaves `csv_path` unbound and reading it raises.
   */
  function RecognitionCsv(split: Option<string>): (r: Result<CsvSource, Error>)
    ensures r.Success? <==> split == None || split.value in ConvertedSplits
    ensures r == Success(RawTrain) <==> split == None || split == Some("trainval")
    ensures r.Success? && r.value.Converted? ==> split == Some(r.value.split) && r.value.split != "trainval"
    ensures r.Failure? ==> r.error == UnknownSplit(split.value)
  {
    if split == None || split == Some("trainval") then Success(RawTrain)
    else if split == Some("train") || split == Some("val") then Success(Converted(split.value))
    else Failure(UnknownSplit(split.value))
  }

  /** `KuzushijiCharCropDataset(split)`: a falsy split means 'trainval', and the name is then checked. */
  function CharCropSplit(split: Option<string>): (r: Result<string, Error>)
    ensures r.Success? <==> split == None || split == Some("") || split.value in ConvertedSplits
    ensures r.Success? ==> r.value in ConvertedSplits
    ensures split == None || split == Some("") ==> r == Success("trainval")
    ensures r.Success? && split.Some? && split.value != "" ==> r.value == split.value
    ensures r.Failure? ==> r.error == SplitNotAllowed(split.value)
  {
    var name := if split == None || split == Some("") then "trainval" else split.value;
    if name in ConvertedSplits then Success(name) else Failure(SplitNotAllowed(name))
  }

  /**
   * The two policies accept the same names and pick the same data, except that the empty name
   * is 'trainval' for the character crops and an error for the pages.
   */
  lemma SplitPoliciesAgree(split: Option<string>)
    ensures split != Some("") ==> (RecognitionCsv(split).Success? <==> CharCropSplit(split).Success?)
    ensures RecognitionCsv(split) == Success(RawTrain) ==> CharCropSplit(split) == Success("trainval")
    ensures RecognitionCsv(split).Success? && RecognitionCsv(split).value.Converted? ==>
              CharCropSplit(split) == Success(RecognitionCsv(split).value.split)
    ensures RecognitionCsv(Some("")).Failure? && CharCropSplit(Some("")) == Success("trainval")
  {
  }

  // ---------------------------------------------------------------- KuzushijiRecognitionDataset

  /** A row of the table: the page's image id and its labels string, absent (NaN) on an empty page. */
  datatype Page = Page(imageId: string, labels: Option<string>)

  /** What `get_example` returns: the opened page image, the corner boxes, and the unicodes. */
  datatype Example = Example(image: Value, bboxes: array2<int>, unicodes: seq<string>)

  /** `_dataset_dir / 'train_images'`, below the data directory. */
  const TrainImages := "kuzushiji-recognition/train_images"

  /** The rows of a box array, as boxes. */
  function BoxRows(b: array2<int>): (boxes: seq<Box>)
    requires b.Length1 == 4
    reads b
    ensures |boxes| == b.Length0
    ensures forall i :: 0 <= i < |boxes| ==> boxes[i] == Box(b[i, 0], b[i, 1], b[i, 2], b[i, 3])
  {
    seq(b.Length0, i requires 0 <= i < b.Length0 reads b => Box(b[i, 0], b[i, 1], b[i, 2], b[i, 3]))
  }

  class RecognitionDataset {
    /** `self.table`, the rows of the CSV file. */
    const table: seq<Page>
    const imageDir: string

    constructor (table: seq<Page>)
      ensures this.table == table && imageDir == TrainImages
    {
      this.table := table;
      imageDir := TrainImages;
    }

    /** `len(self.table)`: `get_example` accepts exactly the indices -n .. n - 1. */
    function Length(): (n: nat)
      ensures forall i :: ListIndex(i, |table|).Some? <==> -(n as int) <= i < n
    {
      |table|
    }

    /**
     * `get_example(i)`: row i (negative i counts from the end), its image, and its labels string
     * parsed into unicodes and an n x 4 array of (x1, y1, x2, y2) boxes.
     */
    method GetExample(i: int) returns (r: Result<Example, Error>)
      ensures ListIndex(i, |table|).None? ==> r == Failure(NoSuchRecord(i))
      ensures ListIndex(i, |table|).Some? ==>
                var page := table[ListIndex(i, |table|).value];
                && (r.Success? <==> ParseLabels(page.labels).Success?)
                && (r.Failure? ==> r.error == ParseLabels(page.labels).error)
      ensures r.Success? ==>
                var page := table[ListIndex(i, |table|).value];
                && r.value.image == ImageFile(imageDir, page.imageId + ".jpg")
                && r.value.unicodes == ParseLabels(page.labels).value.unicodes
                && r.value.bboxes.Length1 == 4
                && BoxRows(r.value.bboxes) == ParseLabels(page.labels).value.boxes
    {
      var j := ListIndex(i, |table|);
      if j.None? {
        return Failure(NoSuchRecord(i));
      }
      var page := table[j.value];
      var image := ImageFile(imageDir, page.imageId + ".jpg");
      var unicodes, bboxes := LabelArrays(page.labels);
      if unicodes.Failure? {
        return Failure(unicodes.error);
      }
      return Success(Example(image, bboxes, unicodes.value));
    }
  }

  /**
   * Lines 46-57: the unicodes of a labels string, and its boxes as an n x 4 array stacked from
   * the columns and turned into corners in place; an absent labels field gives a 0 x 4 array.
   */
  method LabelArrays(labels: Option<string>) returns (unicodes: Result<seq<string>, Error>, bboxes: array2<int>)
    ensures unicodes.Success? <==> ParseLabels(labels).Success?
    ensures unicodes.Failure? ==> unicodes.error == ParseLabels(labels).error
    ensures unicodes.Success? ==>
              && unicodes.value == ParseLabels(labels).value.unicodes
              && bboxes.Length1 == 4
              && BoxRows(bboxes) == ParseLabels(labels).value.boxes
  {
    bboxes := new int[0, 4];
    if labels.None? {
      return Success([]), bboxes;
    }
    var columns := ParseColumns(Words(labels.value));
    if columns.Failure? {
      return Failure(columns.error), bboxes;
    }
    var c := columns.value;
    if !SameLength(c) {
      return Failure(RaggedColumns), bboxes;
    }
    bboxes := CornerArray(c);
    unicodes := Success(c.unicodes);
  }

  /** Lines 53-54: the coordinate columns stacked into rows, then turned into corners in place. */
  method CornerArray(c: Columns) returns (bboxes: array2<int>)
    requires SameLength(c)
    ensures bboxes.Length1 == 4 && BoxRows(bboxes) == ToBoxes(c).value
  {
    bboxes := StackColumns(c.x, c.y, c.w, c.h);
    ToCorners(bboxes);
    ghost var boxes := ToBoxes(c).value;
    assert forall k :: 0 <= k < |boxes| ==>
             bboxes[k, 0] == c.x[k] && bboxes[k, 1] == c.y[k] && bboxes[k, 2] == c.x[k] + c.w[k] && bboxes[k, 3] == c.y[k] + c.h[k];
    assert forall k :: 0 <= k < |boxes| ==> BoxRows(bboxes)[k] == boxes[k];
  }

  /** Reads the table of the split; `readCsv` stands for `pd.read_csv`. */
  method LoadRecognition(split: Option<string>, readCsv: CsvSource -> seq<Page>) returns (r: Result<RecognitionDataset, Error>)
    ensures r.Success? <==> RecognitionCsv(split).Success?
    ensures r.Failure? ==> r.error == UnknownSplit(split.value)
    ensures r.Success? ==> r.value.Length() == |readCsv(RecognitionCsv(split).value)|
    ensures r.Success? ==> r.value.table == readCsv(RecognitionCsv(split).value) && r.value.imageDir == TrainImages
  {
    var source :- RecognitionCsv(split);
    var d := new RecognitionDataset(readCsv(source));
    return Success(d);
  }

  // ---------------------------------------------------------------- class labels of records

  /** `d['unicode']` then `mapping.unicode_to_index`: the class of a record. */
  function LabelOf(t: Tables, rec: Record): (r: Result<nat, Error>)
    requires Consistent(t)
    ensures r.Success? ==> "unicode" in rec && r.value in t.indexToUnicode && rec["unicode"] == Str(t.indexToUnicode[r.value])
    ensures r.Success? ==> t.unicodeToIndex[t.indexToUnicode[r.value]] == r.value
    ensures r.Success? ==> forall k :: k in t.indexToUnicode && rec["unicode"] == Str(t.indexToUnicode[k]) ==> k <= r.value
    ensures "unicode" !in rec ==> r == Failure(MissingKey("unicode"))
    ensures r.Failure? && "unicode" in rec ==>
              && r == Failure(UnknownUnicode(rec["unicode"]))
              && forall k :: k in t.indexToUnicode ==> rec["unicode"] != Str(t.indexToUnicode[k])
  {
    if "unicode" !in rec then Failure(MissingKey("unicode"))
    else match rec["unicode"]
      case Str(u) =>
        if u in t.unicodeToIndex then Success(t.unicodeToIndex[u]) else Failure(UnknownUnicode(rec["unicode"]))
      case _ => Failure(UnknownUnicode(rec["unicode"]))
  }

  /** The class of every record, in record order; the first record without one raises. */
  function Labels(t: Tables, data: seq<Record>): (r: Result<seq<nat>, Error>)
    requires Consistent(t)
    ensures r.Success? <==> forall k :: 0 <= k < |data| ==> LabelOf(t, data[k]).Success?
    ensures r.Success? ==> |r.value| == |data| && forall k :: 0 <= k < |data| ==> LabelOf(t, data[k]) == Success(r.value[k])
    ensures r.Failure? ==>
              exists k :: 0 <= k < |data| && LabelOf(t, data[k]) == Failure(r.error)
                          && forall j :: 0 <= j < k ==> LabelOf(t, data[j]).Success?
  {
    var rs := seq(|data|, k requires 0 <= k < |data| => LabelOf(t, data[k]));
    assert forall k :: 0 <= k < |data| ==> rs[k] == LabelOf(t, data[k]);
    var r := Collect(rs);
    if r.Failure? then CollectFailure(rs); r else r
  }

  /** The class of a record, which must also index a count table of `n` entries. */
  function ClassOf(t: Tables, rec: Record, n: nat): Result<nat, Error>
    requires Consistent(t)
  {
    if "unicode" !in rec then Failure(MissingKey("unicode")) else ValueClass(t, rec["unicode"], n)
  }

  /** The class of a unicode value, which must index a count table of `n` entries. */
  function ValueClass(t: Tables, v: Value, n: nat): Result<nat, Error>
    requires Consistent(t)
  {
    if v.Str? && v.s in t.unicodeToIndex then
      if t.unicodeToIndex[v.s] < n then Success(t.unicodeToIndex[v.s])
      else Failure(ClassOutOfRange(t.unicodeToIndex[v.s], n))
    else Failure(UnknownUnicode(v))
  }

  /** Every label is a valid position in a table of `n` counts. */
  predicate Below(labels: seq<nat>, n: nat) {
    forall k :: 0 <= k < |labels| ==> labels[k] < n
  }

  /** Every record has a class, and every class indexes the table of `len(mapping)` counts. */
  ghost predicate Classified(t: Tables, data: seq<Record>) {
    Consistent(t) && Labels(t, data).Success? && Below(Labels(t, data).value, |t.unicodeToChar|)
  }

  /** Every record has a class inside the table exactly when all labels exist and are below `n`. */
  lemma ClassifiedIff(t: Tables, data: seq<Record>, n: nat)
    requires Consistent(t)
    ensures (forall k :: 0 <= k < |data| ==> ClassOf(t, data[k], n).Success?) <==>
              Labels(t, data).Success? && Below(Labels(t, data).value, n)
  {
    if forall k :: 0 <= k < |data| ==> ClassOf(t, data[k], n).Success? {
      assert forall k :: 0 <= k < |data| ==> LabelOf(t, data[k]).Success?;
    }
  }

  // ---------------------------------------------------------------- the record copy of get_example

  /** `data['image_path']`, which must be a string to be joined to the directory. */
  function ImagePathOf(rec: Record): Result<string, Error> {
    if "image_path" !in rec then Failure(MissingKey("image_path"))
    else if rec["image_path"].Str? then Success(rec["image_path"].s)
    else Failure(NotAPath(rec["image_path"]))
  }

  /** `out` is `rec` with `image` and `label` set and every other key as it was. */
  predicate EnrichedCopy(out: Record, rec: Record, image: Value, index: nat) {
    && out.Keys == rec.Keys + {"image", "label"}
    && out["image"] == image
    && out["label"] == Num(index)
    && forall key :: key in rec && key != "image" && key != "label" ==> out[key] == rec[key]
  }

  /**
   * `data = data.copy(); data['image'] = Image.open(dir / data['image_path']);
   * data['label'] = mapping.unicode_to_index(data['unicode'])`. Records are values here, so the
   * stored record cannot change; the result is the copy.
   */
  method CopyWithLabel(rec: Record, dirPath: string, mapping: UnicodeMapping) returns (r: Result<Record, Error>)
    requires mapping.Valid()
    ensures r.Success? <==> ImagePathOf(rec).Success? && LabelOf(mapping.Contents(), rec).Success?
    ensures r.Failure? && ImagePathOf(rec).Failure? ==> r.error == ImagePathOf(rec).error
    ensures r.Failure? && ImagePathOf(rec).Success? ==> r.error == LabelOf(mapping.Contents(), rec).error
    ensures r.Success? ==>
              EnrichedCopy(r.value, rec, ImageFile(dirPath, ImagePathOf(rec).value), LabelOf(mapping.Contents(), rec).value)
  {
    var data := rec;
    if "image_path" !in data {
      return Failure(MissingKey("image_path"));
    }
    var path := data["image_path"];
    if !path.Str? {
      return Failure(NotAPath(path));
    }
    data := data["image" := ImageFile(dirPath, path.s)];
    if "unicode" !in data {
      return Failure(MissingKey("unicode"));
    }
    var unicode := data["unicode"];
    var index := if unicode.Str? then mapping.UnicodeToIndex(unicode.s) else None;
    if index.None? {
      return Failure(UnknownUnicode(unicode));
    }
    data := data["label" := Num(index.value)];
    r := Success(data);
  }

  // ---------------------------------------------------------------- KuzushijiCharCropDataset

  /** `d['unicode']`, which raises for a record without one. */
  function UnicodeField(rec: Record): Result<Value, Error> {
    if "unicode" in rec then Success(rec["unicode"]) else Failure(MissingKey("unicode"))
  }

  /** `[d['unicode'] for d in self.data]`. */
  function UnicodeValues(data: seq<Record>): (r: Result<seq<Value>, Error>)
    ensures r.Success? <==> forall k :: 0 <= k < |data| ==> "unicode" in data[k]
    ensures r.Success? ==> |r.value| == |data| && forall k :: 0 <= k < |data| ==> r.value[k] == data[k]["unicode"]
    ensures r.Failure? ==> r.error == MissingKey("unicode")
  {
    var rs := seq(|data|, k requires 0 <= k < |data| => UnicodeField(data[k]));
    assert forall k :: 0 <= k < |data| ==> rs[k] == UnicodeField(data[k]);
    var r := Collect(rs);
    if r.Success? then
      assert forall k :: 0 <= k < |data| ==> rs[k] == Success(r.value[k]);
      r
    else
      CollectFailure(rs);
      r
  }

  /** `Counter(values)`: every value that occurs, with its number of occurrences. */
  function Tally(values: seq<Value>): (count: map<Value, nat>)
    ensures count.Keys == set k | 0 <= k < |values| :: values[k]
    ensures forall v :: v in count ==> count[v] == CountOf(values, v) > 0
  {
    map v | v in values :: CountOf(values, v)
  }

  /** `Counter(values)[v]` is the number of positions holding `v`, and `v` is a key exactly when there is one. */
  lemma TallyCounts(values: seq<Value>, v: Value)
    ensures v in Tally(values) <==> Positions(values, v) != {}
    ensures v in Tally(values) ==> Tally(values)[v] == |Positions(values, v)|
  {
    CountOfPositions(values, v);
  }

  /** Every visited unicode has a class inside a table of `n` counts. */
  ghost predicate VisitedInRange(t: Tables, count: map<Value, nat>, pending: set<Value>, n: nat)
    requires Consistent(t)
  {
    forall v :: v in count && v !in pending ==> ValueClass(t, v, n).Success?
  }

  /** The count table part-way through the loop: a visited unicode's class holds its tally, other classes 1. */
  ghost predicate FilledFor(t: Tables, count: map<Value, nat>, pending: set<Value>, counts: seq<int>)
    requires Consistent(t)
  {
    forall c :: 0 <= c < |counts| ==>
      counts[c] == if c in t.indexToUnicode && Str(t.indexToUnicode[c]) in count
                        && Str(t.indexToUnicode[c]) !in pending
                        && t.unicodeToIndex[t.indexToUnicode[c]] == c
                   then count[Str(t.indexToUnicode[c])] else 1
  }

  /** One turn of the loop: writing unicode `v`'s tally into its class visits `v`. */
  lemma FillStep(t: Tables, count: map<Value, nat>, pending: set<Value>, counts: seq<int>, v: Value)
    requires Consistent(t) && FilledFor(t, count, pending, counts) && VisitedInRange(t, count, pending, |counts|)
    requires v in pending && v in count && ValueClass(t, v, |counts|).Success?
    ensures FilledFor(t, count, pending - {v}, counts[ValueClass(t, v, |counts|).value := count[v]])
    ensures VisitedInRange(t, count, pending - {v}, |counts|)
  {
  }

  /**
   * The loop of lines 108-110 over the tally of the unicodes: a table of ones, one per class,
   * in which every unicode's class receives its tally. `Counter.most_common` visits the unicodes
   * in an order of its own; any order gives the same table, and the error raised is that of
   * some unicode without a class in the table.
   */
  method FillCounts(mapping: UnicodeMapping, count: map<Value, nat>) returns (r: Result<array<int>, Error>)
    requires mapping.Valid()
    ensures r.Success? <==> forall v :: v in count ==> ValueClass(mapping.Contents(), v, mapping.Length()).Success?
    ensures r.Failure? ==> exists v :: v in count && ValueClass(mapping.Contents(), v, mapping.Length()) == Failure(r.error)
    ensures r.Success? ==> r.value.Length == mapping.Length() && FilledFor(mapping.Contents(), count, {}, r.value[..])
  {
    ghost var t := mapping.Contents();
    var n := mapping.Length();
    var counts := new int[n](_ => 1);
    var pending := count.Keys;
    while pending != {}
      invariant pending <= count.Keys
      invariant counts.Length == n
      invariant VisitedInRange(t, count, pending, n)
      invariant FilledFor(t, count, pending, counts[..])
      decreases pending
    {
      var v :| v in pending;
      var index := if v.Str? then mapping.UnicodeToIndex(v.s) else None;
      if index.None? {
        assert ValueClass(t, v, n) == Failure(UnknownUnicode(v));
        return Failure(UnknownUnicode(v));
      }
      if index.value >= n {
        assert ValueClass(t, v, n) == Failure(ClassOutOfRange(index.value, n));
        return Failure(ClassOutOfRange(index.value, n));
      }
      FillStep(t, count, pending, counts[..], v);
      counts[index.value] := count[v];
      pending := pending - {v};
    }
    r := Success(counts);
  }

  /** The count table a finished loop leaves, read through the tally. */
  lemma TallyFilled(t: Tables, values: seq<Value>, counts: seq<int>)
    requires Consistent(t) && FilledFor(t, Tally(values), {}, counts)
    ensures forall c :: 0 <= c < |counts| ==>
              counts[c] == if c in t.indexToUnicode && Str(t.indexToUnicode[c]) in values
                                && t.unicodeToIndex[t.indexToUnicode[c]] == c
                           then CountOf(values, Str(t.indexToUnicode[c])) else 1
  {
    var count := Tally(values);
    forall c | 0 <= c < |counts|
      ensures counts[c] == if c in t.indexToUnicode && Str(t.indexToUnicode[c]) in values
                               && t.unicodeToIndex[t.indexToUnicode[c]] == c
                          then CountOf(values, Str(t.indexToUnicode[c])) else 1
    {
      if c in t.indexToUnicode {
        var v := Str(t.indexToUnicode[c]);
        assert v in count <==> v in values;
      }
    }
  }

  /** The labels of records that all have a class in the table: each is the class of the record's unicode. */
  lemma LabelsOfValues(t: Tables, data: seq<Record>, values: seq<Value>, n: nat)
    requires Consistent(t)
    requires forall k :: 0 <= k < |data| ==> ClassOf(t, data[k], n).Success?
    requires |values| == |data| && forall k :: 0 <= k < |data| ==> "unicode" in data[k] && values[k] == data[k]["unicode"]
    ensures Labels(t, data).Success? && Below(Labels(t, data).value, n) && |Labels(t, data).value| == |values|
    ensures var labels := Labels(t, data).value;
            forall j :: 0 <= j < |labels| ==>
              labels[j] in t.indexToUnicode && values[j] == Str(t.indexToUnicode[labels[j]])
              && t.unicodeToIndex[t.indexToUnicode[labels[j]]] == labels[j]
  {
    ClassifiedIff(t, data, n);
    var labels := Labels(t, data).value;
    forall j | 0 <= j < |labels|
      ensures labels[j] in t.indexToUnicode && values[j] == Str(t.indexToUnicode[labels[j]])
              && t.unicodeToIndex[t.indexToUnicode[labels[j]]] == labels[j]
    {
      assert LabelOf(t, data[j]) == Success(labels[j]);
    }
  }

  /** The count table a finished loop leaves: the tally of class c's unicode, or 1 when it has none. */
  lemma FlooredFromTally(t: Tables, labels: seq<nat>, values: seq<Value>, counts: seq<int>)
    requires Consistent(t)
    requires |values| == |labels|
    requires forall j :: 0 <= j < |labels| ==>
               labels[j] in t.indexToUnicode && values[j] == Str(t.indexToUnicode[labels[j]])
               && t.unicodeToIndex[t.indexToUnicode[labels[j]]] == labels[j]
    requires forall c :: 0 <= c < |counts| ==>
               counts[c] == if c in t.indexToUnicode && Str(t.indexToUnicode[c]) in values
                                 && t.unicodeToIndex[t.indexToUnicode[c]] == c
                            then CountOf(values, Str(t.indexToUnicode[c])) else 1
    ensures counts == Floored(Histogram(labels, |counts|))
  {
    var n := |counts|;
    var expected := Floored(Histogram(labels, n));
    forall c: nat | c < n ensures counts[c] == expected[c] {
      assert Histogram(labels, n)[c] == CountOf(labels, c);
      if c in t.indexToUnicode && t.unicodeToIndex[t.indexToUnicode[c]] == c {
        CountOfTransfer(labels, c, values, Str(t.indexToUnicode[c]));
      } else {
        assert c !in labels;
      }
    }
  }

  /** The unicodes of the tally all have a class in the table exactly when every record does. */
  lemma TallyClasses(t: Tables, data: seq<Record>, values: seq<Value>, n: nat)
    requires Consistent(t)
    requires |values| == |data| && forall k :: 0 <= k < |data| ==> "unicode" in data[k] && values[k] == data[k]["unicode"]
    ensures (forall v :: v in Tally(values) ==> ValueClass(t, v, n).Success?) <==>
              (forall k :: 0 <= k < |data| ==> ClassOf(t, data[k], n).Success?)
    ensures forall v :: v in Tally(values) ==> exists k :: 0 <= k < |data| && ClassOf(t, data[k], n) == ValueClass(t, v, n)
  {
    forall v | v in Tally(values) ensures exists k :: 0 <= k < |data| && ClassOf(t, data[k], n) == ValueClass(t, v, n) {
      var k :| 0 <= k < |values| && values[k] == v;
    }
    if forall v :: v in Tally(values) ==> ValueClass(t, v, n).Success? {
      forall k | 0 <= k < |data| ensures ClassOf(t, data[k], n).Success? {
        assert values[k] in Tally(values);
      }
    }
  }

  /**
   * Lines 106-110: the char-crop count table. Every record needs a unicode (the list handed to
   * `Counter` is built first), and every unicode a class inside the table.
   */
  method CountFloored(mapping: UnicodeMapping, data: seq<Record>) returns (r: Result<array<int>, Error>)
    requires mapping.Valid()
    ensures r.Success? <==>
              Labels(mapping.Contents(), data).Success? && Below(Labels(mapping.Contents(), data).value, mapping.Length())
    ensures (exists k :: 0 <= k < |data| && "unicode" !in data[k]) ==> r == Failure(MissingKey("unicode"))
    ensures r.Failure? ==> exists k :: 0 <= k < |data| && ClassOf(mapping.Contents(), data[k], mapping.Length()) == Failure(r.error)
    ensures r.Success? ==>
              && r.value.Length == mapping.Length()
              && r.value[..] == Floored(Histogram(Labels(mapping.Contents(), data).value, mapping.Length()))
  {
    ghost var t := mapping.Contents();
    ghost var n := mapping.Length();
    ClassifiedIff(t, data, n);
    var values := UnicodeValues(data);
    if values.Failure? {
      ghost var k :| 0 <= k < |data| && "unicode" !in data[k];
      return Failure(values.error);
    }
    var count := Tally(values.value);
    r := FillCounts(mapping, count);
    TallyClasses(t, data, values.value, n);
    if r.Success? {
      TallyFilled(t, values.value, r.value[..]);
      LabelsOfValues(t, data, values.value, n);
      FlooredFromTally(t, Labels(t, data).value, values.value, r.value[..]);
    }
  }

  class CharCropDataset {
    /** `_converted_dir`, against which image paths are resolved. */
    const dirPath: string
    /** `annt['annotations']`, one record per cropped character. */
    const data: seq<Record>
    const mapping: UnicodeMapping
    /** The per-class sample counts, each at least 1. */
    const numSamples: array<int>

    ghost predicate Valid()
      reads mapping, numSamples
    {
      && mapping.Valid()
      && Classified(mapping.Contents(), data)
      && numSamples[..] == Floored(Histogram(Labels(mapping.Contents(), data).value, mapping.Length()))
    }

    constructor (dirPath: string, data: seq<Record>, mapping: UnicodeMapping, numSamples: array<int>)
      ensures this.dirPath == dirPath && this.data == data && this.mapping == mapping && this.numSamples == numSamples
    {
      this.dirPath := dirPath;
      this.data := data;
      this.mapping := mapping;
      this.numSamples := numSamples;
    }

    /** `len(self.data)`: `get_example` accepts exactly the indices -n .. n - 1. */
    function Length(): (n: nat)
      ensures forall i :: ListIndex(i, |data|).Some? <==> -(n as int) <= i < n
    {
      |data|
    }

    /** `get_example(i)`: a labelled copy of record i (negative i counts from the end). */
    method GetExample(i: int) returns (r: Result<Record, Error>)
      requires Valid()
      ensures ListIndex(i, |data|).None? ==> r == Failure(NoSuchRecord(i))
      ensures ListIndex(i, |data|).Some? ==>
                var rec := data[ListIndex(i, |data|).value];
                && (r.Success? <==> ImagePathOf(rec).Success?)
                && (r.Failure? ==> r.error == ImagePathOf(rec).error)
                && (r.Success? ==>
                      EnrichedCopy(r.value, rec, ImageFile(dirPath, ImagePathOf(rec).value),
                                   Labels(mapping.Contents(), data).value[ListIndex(i, |data|).value]))
    {
      var j := ListIndex(i, |data|);
      if j.None? {
        return Failure(NoSuchRecord(i));
      }
      r := CopyWithLabel(data[j.value], dirPath, mapping);
    }
  }

  /** The converted data directory, `_converted_dir`. */
  const ConvertedDir := "kuzushiji-recognition-converted"

  /**
   * The constructor: the split's annotations (`annotations` stands for the JSON file of each
   * split), the unicode table read from `translation`, and the floored count table.
   */
  method LoadCharCrop(split: Option<string>, annotations: string -> seq<Record>, translation: seq<string>)
    returns (r: Result<CharCropDataset, Error>)
    ensures r.Success? <==>
              && CharCropSplit(split).Success?
              && ParseBody(Body(translation)).Success?
              && Classified(Loaded(translation), annotations(CharCropSplit(split).value))
    ensures r.Failure? && CharCropSplit(split).Failure? ==> r.error == CharCropSplit(split).error
    ensures r.Failure? && CharCropSplit(split).Success? && ParseBody(Body(translation)).Failure? ==>
              r.error == ParseBody(Body(translation)).error
    ensures r.Failure? && CharCropSplit(split).Success? && ParseBody(Body(translation)).Success? ==>
              var data, t := annotations(CharCropSplit(split).value), Loaded(translation);
              && ((exists k :: 0 <= k < |data| && "unicode" !in data[k]) ==> r.error == MissingKey("unicode"))
              && exists k :: 0 <= k < |data| && ClassOf(t, data[k], |t.unicodeToChar|) == Failure(r.error)
    ensures r.Success? ==>
              && r.value.Valid()
              && r.value.dirPath == ConvertedDir
              && r.value.data == annotations(CharCropSplit(split).value)
              && r.value.Length() == |annotations(CharCropSplit(split).value)|
              && r.value.mapping.Contents() == Loaded(translation)
  {
    var name :- CharCropSplit(split);
    var data := annotations(name);
    var mapping :- Load(translation);
    var numSamples :- CountFloored(mapping, data);
    var d := new CharCropDataset(ConvertedDir, data, mapping, numSamples);
    return Success(d);
  }
}
