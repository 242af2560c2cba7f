/**
 * `KuzushijiPseudoLabelsDataset` of scripts/finetune_classifier.py: per-character records
 * labelled by an earlier classifier, with a plain histogram of their classes.
 */
module FinetuneClassifier {
  import opened Wrappers
  import opened Counts
  import opened Values
  import opened UnicodeTable
  import opened KuzushijiDatasets

  /**
   * Lines 51-53: a table of zeros, one per class, in which each label in turn adds one to its
   * class; the first label past the end of the table raises IndexError.
   */
  method BuildHistogram(labels: seq<nat>, n: nat) returns (r: Result<array<int>, Error>)
    ensures r.Success? <==> Below(labels, n)
    ensures r.Failure? ==>
              exists j :: 0 <= j < |labels| && labels[j] >= n && r.error == ClassOutOfRange(labels[j], n) && Below(labels[..j], n)
    ensures r.Success? ==> r.value.Length == n && r.value[..] == Histogram(labels, n)
  {
    var counts := new int[n](_ => 0);
    assert counts[..] == Histogram(labels[..0], n);
    for j := 0 to |labels|
      invariant Below(labels[..j], n)
      invariant counts[..] == Histogram(labels[..j], n)
    {
      if labels[j] >= n {
        return Failure(ClassOutOfRange(labels[j], n));
      }
      assert labels[..j + 1] == labels[..j] + [labels[j]];
      HistogramSnoc(labels[..j], labels[j], n);
      counts[labels[j]] := counts[labels[j]] + 1;
    }
    assert labels[..|labels|] == labels;
    r := Success(counts);
  }

  class PseudoLabelsDataset {
    /** `Path(data_dir)`, against which image paths are resolved. */
    const dirPath: string
    /** `json.load(...)['pseudo_labels']`, one record per character. */
    const data: seq<Record>
    const mapping: UnicodeMapping
    /** `self.all_labels`: the class of every record, in record order. */
    const allLabels: seq<nat>
    /** `self.num_samples`: the number of records of each class. */
    const numSamples: array<int>

    ghost predicate Valid()
      reads mapping, numSamples
    {
      && mapping.Valid()
      && Labels(mapping.Contents(), data) == Success(allLabels)
      && Below(allLabels, mapping.Length())
      && numSamples[..] == Histogram(allLabels, mapping.Length())
    }

    constructor (dirPath: string, data: seq<Record>, mapping: UnicodeMapping, allLabels: seq<nat>, numSamples: array<int>)
      ensures this.dirPath == dirPath && this.data == data && this.mapping == mapping
      ensures this.allLabels == allLabels && this.numSamples == numSamples
    {
      this.dirPath := dirPath;
      this.data := data;
      this.mapping := mapping;
      this.allLabels := allLabels;
      this.numSamples := numSamples;
    }

    /** `len(self.data)`: `get_example` accepts exactly the indices -n .. n - 1. */
    function Length(): (n: nat)
      ensures forall i :: ListIndex(i, |data|).Some? <==> -(n as int) <= i < n
    {
      |data|
    }

    /** `get_example(i)`: a labelled copy of record i (negative i counts from the end). */
    method GetExample(i: int) returns (r: Result<Record, Error>)
      requires Valid()
      ensures ListIndex(i, |data|).None? ==> r == Failure(NoSuchRecord(i))
      ensures ListIndex(i, |data|).Some? ==>
                var rec := data[ListIndex(i, |data|).value];
                && (r.Success? <==> ImagePathOf(rec).Success?)
                && (r.Failure? ==> r.error == ImagePathOf(rec).error)
                && (r.Success? ==>
                      EnrichedCopy(r.value, rec, ImageFile(dirPath, ImagePathOf(rec).value), allLabels[ListIndex(i, |data|).value]))
    {
      var j := ListIndex(i, |data|);
      if j.None? {
        return Failure(NoSuchRecord(i));
      }
      r := CopyWithLabel(data[j.value], dirPath, mapping);
    }
  }

  /**
   * The constructor: the records of `pseudo_labels.json` (given as `pseudoLabels`), the unicode
   * table read from `translation`, the class of every record, then the histogram.
   */
  method LoadPseudoLabels(dataDir: string, pseudoLabels: seq<Record>, translation: seq<string>)
    returns (r: Result<PseudoLabelsDataset, Error>)
    ensures r.Success? <==> ParseBody(Body(translation)).Success? && Classified(Loaded(translation), pseudoLabels)
    ensures r.Failure? && ParseBody(Body(translation)).Failure? ==> r.error == ParseBody(Body(translation)).error
    ensures r.Failure? && ParseBody(Body(translation)).Success? && Labels(Loaded(translation), pseudoLabels).Failure? ==>
              r.error == Labels(Loaded(translation), pseudoLabels).error
    ensures r.Failure? && ParseBody(Body(translation)).Success? && Labels(Loaded(translation), pseudoLabels).Success? ==>
              var labels := Labels(Loaded(translation), pseudoLabels).value;
              var n := |Loaded(translation).unicodeToChar|;
              exists j :: 0 <= j < |labels| && labels[j] >= n && r.error == ClassOutOfRange(labels[j], n) && Below(labels[..j], n)
    ensures r.Success? ==>
              && r.value.Valid()
              && r.value.dirPath == dataDir
              && r.value.data == pseudoLabels
              && r.value.Length() == |pseudoLabels|
              && r.value.allLabels == Labels(Loaded(translation), pseudoLabels).value
              && r.value.mapping.Contents() == Loaded(translation)
  {
    var mapping :- Load(translation);
    var allLabels :- Labels(mapping.Contents(), pseudoLabels);
    var numSamples :- BuildHistogram(allLabels, mapping.Length());
    var d := new PseudoLabelsDataset(dataDir, pseudoLabels, mapping, allLabels, numSamples);
    return Success(d);
  }

  /** The pseudo-label counts add up to the number of records: every record is counted once. */
  lemma PseudoLabelCountsSum(d: PseudoLabelsDataset)
    requires d.Valid()
    ensures Sum(d.numSamples[..]) == d.Length() == |d.allLabels|
  {
    CountTablesCompared(d.allLabels, d.mapping.Length());
  }

  /** The char-crop counts add up to the number of records plus one for every class without a record. */
  lemma CharCropCountsSum(d: CharCropDataset)
    requires d.Valid()
    ensures Sum(d.numSamples[..]) == d.Length() + CountOf(Histogram(Labels(d.mapping.Contents(), d.data).value, d.mapping.Length()), 0)
    ensures forall c :: 0 <= c < d.numSamples.Length ==> d.numSamples[c] >= 1
  {
    CountTablesCompared(Labels(d.mapping.Contents(), d.data).value, d.mapping.Length());
  }
}
