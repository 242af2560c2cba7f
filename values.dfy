/** Annotation records, the values they hold, and the failures of the dataset code. */
module Values {
  import opened Wrappers

  /** A value stored in an annotation record (a JSON object loaded by the dataset). */
  datatype Value =
    | Str(s: string)
    /** An integer, such as the class label `get_example` adds. */
    | Num(n: int)
    /** What `Image.open(dir / name)` gives back; the pixels are not modelled. */
    | ImageFile(dir: string, name: string)
    /** Any other JSON value (float, list, object, null). */
    | Other

  /** One annotation: a dictionary from key to value. */
  type Record = map<string, Value>

  /** The exceptions the dataset code can raise, one case per cause. */
  datatype Error =
    /** `KuzushijiRecognitionDataset(split)` with a name other than None, 'trainval', 'train', 'val'. */
    | UnknownSplit(name: string)
    /** `KuzushijiCharCropDataset(split)` failing its assertion on the split name. */
    | SplitNotAllowed(name: string)
    /** `int(token)` on a token that is not a decimal integer. */
    | NotAnInteger(token: string)
    /** The four coordinate columns of a labels string have different lengths. */
    | RaggedColumns
    /** A line of the unicode translation table that is not exactly two comma-separated fields. */
    | MalformedLine(line: nat, fields: nat)
    /** A record without the key the code reads. */
    | MissingKey(key: string)
    /** A record whose `image_path` cannot be joined to a directory. */
    | NotAPath(path: Value)
    /** A unicode absent from the translation table. */
    | UnknownUnicode(unicode: Value)
    /** A class index past the end of a count table. */
    | ClassOutOfRange(index: int, classes: nat)
    /** A record index outside the list. */
    | NoSuchRecord(index: int)

  /** Python's list indexing: `-n <= i < n` is valid, and negative `i` counts from the end. */
  function ListIndex(i: int, n: nat): (r: Option<nat>)
    ensures r.Some? <==> -(n as int) <= i < n
    ensures r.Some? ==> r.value < n && (r.value - i) % n == 0
  {
    if 0 <= i < n then Some(i) else if -(n as int) <= i < 0 then Some(n + i) else None
  }

  /** The values of a list of results, in order; the first failure wins. */
  function Collect<T>(rs: seq<Result<T, Error>>): (r: Result<seq<T>, Error>)
    ensures r.Success? <==> forall k :: 0 <= k < |rs| ==> rs[k].Success?
    ensures r.Success? ==> |r.value| == |rs| && forall k :: 0 <= k < |rs| ==> rs[k] == Success(r.value[k])
  {
    if rs == [] then Success([])
    else
      var init := rs[..|rs| - 1];
      match Collect(init)
      case Failure(err) => Failure(err)
      case Success(vs) =>
        match rs[|rs| - 1]
        case Failure(err) => Failure(err)
        case Success(v) => Success(vs + [v])
  }

  /** The error `Collect` reports is that of the first failure. */
  lemma {:induction false} CollectFirstFailure<T>(rs: seq<Result<T, Error>>, i: nat)
    requires i < |rs| && rs[i].Failure?
    requires forall j :: 0 <= j < i ==> rs[j].Success?
    ensures Collect(rs) == Failure(rs[i].error)
  {
    var init := rs[..|rs| - 1];
    if i < |rs| - 1 {
      CollectFirstFailure(init, i);
    } else {
      assert Collect(init).Success?;
    }
  }

  /** A failed `Collect` failed at some first failing result, and reports that result's error. */
  lemma {:induction false} CollectFailure<T>(rs: seq<Result<T, Error>>)
    requires Collect(rs).Failure?
    ensures exists i :: 0 <= i < |rs| && rs[i] == Failure(Collect(rs).error) && forall j :: 0 <= j < i ==> rs[j].Success?
  {
    var init := rs[..|rs| - 1];
    var i: nat;
    if Collect(init).Failure? {
      CollectFailure(init);
      i :| 0 <= i < |init| && init[i] == Failure(Collect(init).error) && forall j :: 0 <= j < i ==> init[j].Success?;
      assert forall j :: 0 <= j < i ==> rs[j] == init[j];
    } else {
      i := |rs| - 1;
      assert forall j :: 0 <= j < i ==> rs[j] == init[j];
    }
    assert rs[i] == Failure(Collect(rs).error);
  }

  /** One more succeeding result extends the collected values by its value. */
  lemma CollectPrefixSuccess<T>(rs: seq<Result<T, Error>>, i: nat, vs: seq<T>, v: T)
    requires i < |rs| && Collect(rs[..i]) == Success(vs) && rs[i] == Success(v)
    ensures Collect(rs[..i + 1]) == Success(vs + [v])
  {
    assert rs[..i + 1][..i] == rs[..i];
  }

  /** When the results before position `i` all succeed and result `i` fails, `Collect` reports it. */
  lemma CollectPrefixFailure<T>(rs: seq<Result<T, Error>>, i: nat)
    requires i < |rs| && Collect(rs[..i]).Success? && rs[i].Failure?
    ensures Collect(rs) == Failure(rs[i].error)
  {
    assert forall j :: 0 <= j < i ==> rs[..i][j] == rs[j];
    CollectFirstFailure(rs, i);
  }
}
