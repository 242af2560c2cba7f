/**
 * The `labels` field of a page of the Kaggle Kuzushiji Recognition table
 * (kr/datasets/kuzushiji_recognition.py, `KuzushijiRecognitionDataset.get_example`):
 * whitespace-separated tokens in groups of five, `unicode x y w h`, one group per character.
 */
module KuzushijiLabels {
  import opened Wrappers
  import opened Text
  import opened Values

  /** A character box in corner form (x1, y1, x2, y2). */
  datatype Box = Box(x1: int, y1: int, x2: int, y2: int)

  /** What `get_example` returns besides the image: the unicodes and the boxes, in token-group order. */
  datatype Annotation = Annotation(unicodes: seq<string>, boxes: seq<Box>)

  /** The five token columns; the last four read as integers. */
  datatype Columns = Columns(unicodes: seq<string>, x: seq<int>, y: seq<int>, w: seq<int>, h: seq<int>)

  /** `tokens[j::5]`: the tokens at positions j, j + 5, j + 10, ... */
  function Column(tokens: seq<string>, j: nat): (col: seq<string>)
    requires j < 5
    ensures |col| == (|tokens| + 4 - j) / 5
    ensures forall i :: 0 <= i < |col| ==> col[i] == tokens[5 * i + j]
  {
    var n := (|tokens| + 4 - j) / 5;
    seq(n, i requires 0 <= i < n => tokens[5 * i + j])
  }

  /** `[int(v) for v in col]`: the first token that is not an integer raises. */
  function ParseInts(col: seq<string>): (r: Result<seq<int>, Error>)
    ensures r.Success? <==> forall i :: 0 <= i < |col| ==> ParseInt(col[i]).Some?
    ensures r.Success? ==> |r.value| == |col| && forall i :: 0 <= i < |col| ==> ParseInt(col[i]) == Some(r.value[i])
    ensures r.Failure? ==>
              exists i :: 0 <= i < |col| && ParseInt(col[i]).None? && r.error == NotAnInteger(col[i])
                          && forall j :: 0 <= j < i ==> ParseInt(col[j]).Some?
  {
    if col == [] then Success([])
    else if ParseInt(col[0]).None? then Failure(NotAnInteger(col[0]))
    else
      var rest :- ParseInts(col[1..]);
      Success([ParseInt(col[0]).value] + rest)
  }

  /**
   * Every token at a position congruent to j modulo 5 is in `tokens[j::5]`, at position p / 5,
   * and every entry of the column comes from such a position.
   */
  lemma ColumnPositions(tokens: seq<string>, j: nat)
    requires j < 5
    ensures forall p :: 0 <= p < |tokens| && p % 5 == j ==> p / 5 < |Column(tokens, j)| && Column(tokens, j)[p / 5] == tokens[p]
    ensures forall i :: 0 <= i < |Column(tokens, j)| ==> 5 * i + j < |tokens| && (5 * i + j) % 5 == j
  {
    forall p | 0 <= p < |tokens| && p % 5 == j
      ensures p / 5 < |Column(tokens, j)| && Column(tokens, j)[p / 5] == tokens[p]
    {
      ColumnIndex(|tokens|, j, p);
    }
  }

  /** Position p = 5 * (p / 5) + j of n tokens is row p / 5 of a column of (n + 4 - j) / 5 rows. */
  lemma ColumnIndex(n: nat, j: nat, p: nat)
    requires j < 5 && p < n && p % 5 == j
    ensures p == 5 * (p / 5) + j && p / 5 < (n + 4 - j) / 5
  {
    var i := p / 5;
    assert 5 * (i + 1) <= n + 4 - j;
  }

  /**
   * The token list cut into its five columns; x, y, w and h are converted in that order. The
   * columns shrink from left to right by at most one entry in all, and a failure names a token
   * that is not an integer.
   */
  function ParseColumns(tokens: seq<string>): (r: Result<Columns, Error>)
    ensures r.Success? ==>
              var c := r.value;
              |c.h| <= |c.w| <= |c.y| <= |c.x| <= |c.unicodes| <= |c.h| + 1
    ensures r.Failure? ==> exists p :: 0 <= p < |tokens| && p % 5 != 0 && r.error == NotAnInteger(tokens[p]) && ParseInt(tokens[p]).None?
  {
    var rx, ry := ParseInts(Column(tokens, 1)), ParseInts(Column(tokens, 2));
    var rw, rh := ParseInts(Column(tokens, 3)), ParseInts(Column(tokens, 4));
    if rx.Failure? then ColumnFailure(tokens, 1); Failure(rx.error)
    else if ry.Failure? then ColumnFailure(tokens, 2); Failure(ry.error)
    else if rw.Failure? then ColumnFailure(tokens, 3); Failure(rw.error)
    else if rh.Failure? then ColumnFailure(tokens, 4); Failure(rh.error)
    else
      ColumnSizes(|tokens|);
      Success(Columns(Column(tokens, 0), rx.value, ry.value, rw.value, rh.value))
  }

  /** A coordinate column that fails to convert names a non-integer token off column 0. */
  lemma ColumnFailure(tokens: seq<string>, j: nat)
    requires 1 <= j < 5 && ParseInts(Column(tokens, j)).Failure?
    ensures exists p :: 0 <= p < |tokens| && p % 5 != 0 && ParseInts(Column(tokens, j)).error == NotAnInteger(tokens[p])
                        && ParseInt(tokens[p]).None?
  {
    var col := Column(tokens, j);
    var i :| 0 <= i < |col| && ParseInt(col[i]).None? && ParseInts(col).error == NotAnInteger(col[i]);
    var p := 5 * i + j;
    assert p % 5 == j;
    assert col[i] == tokens[p];
  }

  /** Columns 0 .. 4 of n tokens have non-increasing lengths, the first at most one longer than the last. */
  lemma ColumnSizes(n: nat)
    ensures n / 5 <= (n + 1) / 5 <= (n + 2) / 5 <= (n + 3) / 5 <= (n + 4) / 5 <= n / 5 + 1
  {
    var k, r := n / 5, n % 5;
    assert n == 5 * k + r;
    assert (n + 4) / 5 == k + (r + 4) / 5;
    assert (n + 3) / 5 == k + (r + 3) / 5;
    assert (n + 2) / 5 == k + (r + 2) / 5;
    assert (n + 1) / 5 == k + (r + 1) / 5;
  }

  predicate SameLength(c: Columns) {
    |c.y| == |c.x| && |c.w| == |c.x| && |c.h| == |c.x|
  }

  /**
   * Stacking the four coordinate columns into rows (x, y, w, h), which fails when they differ
   * in length, then adding (x, y) to (w, h) to get corners.
   */
  function ToBoxes(c: Columns): (r: Result<seq<Box>, Error>)
    ensures r.Success? <==> SameLength(c)
    ensures r.Failure? ==> r.error == RaggedColumns
    ensures r.Success? ==>
              && |r.value| == |c.x|
              && forall i :: 0 <= i < |r.value| ==>
                   var b := r.value[i];
                   b.x1 == c.x[i] && b.y1 == c.y[i] && b.x2 - b.x1 == c.w[i] && b.y2 - b.y1 == c.h[i]
  {
    if SameLength(c) then
      Success(seq(|c.x|, i requires 0 <= i < |c.x| => Box(c.x[i], c.y[i], c.x[i] + c.w[i], c.y[i] + c.h[i])))
    else Failure(RaggedColumns)
  }

  /** A page's labels; an absent field (NaN in the table, which has no `split`) gives an empty page. */
  function ParseLabels(labels: Option<string>): (r: Result<Annotation, Error>)
    ensures labels.None? ==> r == Success(Annotation([], []))
    ensures r.Success? ==> |r.value.boxes| <= |r.value.unicodes| <= |r.value.boxes| + 1
    ensures r.Failure? ==> r.error.NotAnInteger? || r.error == RaggedColumns
  {
    match labels
    case None => Success(Annotation([], []))
    case Some(s) =>
      var columns :- ParseColumns(Words(s));
      var boxes :- ToBoxes(columns);
      Success(Annotation(columns.unicodes, boxes))
  }

  // ---------------------------------------------------------------- properties of the parser

  predicate AllIntegers(col: seq<string>) {
    forall i :: 0 <= i < |col| ==> ParseInt(col[i]).Some?
  }

  /** Every token of the four coordinate columns is an integer. */
  predicate NumericTokens(tokens: seq<string>) {
    AllIntegers(Column(tokens, 1)) && AllIntegers(Column(tokens, 2))
    && AllIntegers(Column(tokens, 3)) && AllIntegers(Column(tokens, 4))
  }

  /** The integer in row `i` of coordinate column `j`, that is `int(tokens[5 * i + j])`. */
  function IntAt(tokens: seq<string>, j: nat, i: nat): int
    requires 1 <= j < 5 && NumericTokens(tokens) && i < |Column(tokens, j)|
  {
    ParseInt(Column(tokens, j)[i]).value
  }

  /** The box of token group `i`: (x, y, x + w, y + h) with x, y, w, h read from tokens 5i+1 .. 5i+4. */
  function GroupBox(tokens: seq<string>, i: nat): Box
    requires NumericTokens(tokens) && i < |Column(tokens, 4)|
  {
    var x, y := IntAt(tokens, 1, i), IntAt(tokens, 2, i);
    Box(x, y, x + IntAt(tokens, 3, i), y + IntAt(tokens, 4, i))
  }

  lemma ColumnLengths(n: nat)
    ensures (n + 3) / 5 == n / 5 <==> n % 5 <= 1
    ensures n % 5 <= 1 ==> (n + 2) / 5 == n / 5 && (n + 1) / 5 == n / 5
    ensures (n + 4) / 5 == if n % 5 == 0 then n / 5 else n / 5 + 1
  {
    var k, r := n / 5, n % 5;
    assert n == 5 * k + r;
    assert (n + 4) / 5 == k + (r + 4) / 5;
    assert (n + 3) / 5 == k + (r + 3) / 5;
    assert (n + 2) / 5 == k + (r + 2) / 5;
    assert (n + 1) / 5 == k + (r + 1) / 5;
  }

  lemma ParseColumnsShape(t: seq<string>)
    ensures ParseColumns(t).Success? <==> NumericTokens(t)
    ensures !NumericTokens(t) ==> ParseColumns(t).error.NotAnInteger?
    ensures ParseColumns(t).Success? ==>
              var c := ParseColumns(t).value;
              && c.unicodes == Column(t, 0)
              && |c.x| == |Column(t, 1)| && |c.y| == |Column(t, 2)| && |c.w| == |Column(t, 3)| && |c.h| == |Column(t, 4)|
              && (forall i :: 0 <= i < |c.h| ==>
                    && c.x[i] == IntAt(t, 1, i) && c.y[i] == IntAt(t, 2, i)
                    && c.w[i] == IntAt(t, 3, i) && c.h[i] == IntAt(t, 4, i))
  {
    if NumericTokens(t) {
      ColumnInts(t, 1);
      ColumnInts(t, 2);
      ColumnInts(t, 3);
      ColumnInts(t, 4);
      var x, y := ParseInts(Column(t, 1)).value, ParseInts(Column(t, 2)).value;
      var w, h := ParseInts(Column(t, 3)).value, ParseInts(Column(t, 4)).value;
      assert ParseColumns(t) == Success(Columns(Column(t, 0), x, y, w, h));
    }
  }

  /** A coordinate column of integer tokens converts to those integers. */
  lemma ColumnInts(t: seq<string>, j: nat)
    requires 1 <= j < 5 && NumericTokens(t)
    ensures ParseInts(Column(t, j)).Success?
    ensures |ParseInts(Column(t, j)).value| == |Column(t, j)|
    ensures forall i :: 0 <= i < |Column(t, j)| ==> ParseInts(Column(t, j)).value[i] == IntAt(t, j, i)
  {
  }

  /**
   * What a labels string parses to. It succeeds exactly when every coordinate token is an
   * integer and the token count is 5k or 5k + 1; then the unicodes are the tokens 0, 5, 10, ...
   * and box i is (x, y, x + w, y + h) read from tokens 5i+1 .. 5i+4, with one unicode more than
   * boxes in the 5k + 1 case. A non-integer coordinate token is reported first; otherwise
   * 5k + 2 .. 5k + 4 tokens make ragged columns.
   */
  lemma ParseLabelsOfTokens(s: string)
    ensures ParseLabels(Some(s)).Success? <==> NumericTokens(Words(s)) && |Words(s)| % 5 <= 1
    ensures !NumericTokens(Words(s)) ==> ParseLabels(Some(s)).Failure? && ParseLabels(Some(s)).error.NotAnInteger?
    ensures NumericTokens(Words(s)) && |Words(s)| % 5 > 1 ==> ParseLabels(Some(s)) == Failure(RaggedColumns)
    ensures ParseLabels(Some(s)).Success? ==>
              var t, a := Words(s), ParseLabels(Some(s)).value;
              && |a.boxes| == |t| / 5
              && |a.unicodes| == (if |t| % 5 == 0 then |t| / 5 else |t| / 5 + 1)
              && (forall i :: 0 <= i < |a.unicodes| ==> a.unicodes[i] == t[5 * i])
              && (forall i :: 0 <= i < |a.boxes| ==> a.boxes[i] == GroupBox(t, i))
  {
    ParseLabelsOutcome(Words(s));
    if ParseLabels(Some(s)).Success? {
      ParseLabelsContent(Words(s));
    }
  }

  /** Which of success, a non-integer token and ragged columns a token list leads to. */
  lemma ParseLabelsOutcome(t: seq<string>)
    ensures ParseColumns(t).Success? <==> NumericTokens(t)
    ensures !NumericTokens(t) ==> ParseColumns(t).error.NotAnInteger?
    ensures NumericTokens(t) ==> (ToBoxes(ParseColumns(t).value).Success? <==> |t| % 5 <= 1)
    ensures NumericTokens(t) && |t| % 5 > 1 ==> ToBoxes(ParseColumns(t).value) == Failure(RaggedColumns)
  {
    ParseColumnsShape(t);
    ColumnLengths(|t|);
  }

  /** The unicodes and boxes of a token list that parses. */
  lemma ParseLabelsContent(t: seq<string>)
    requires NumericTokens(t) && |t| % 5 <= 1
    ensures ParseColumns(t).Success? && ToBoxes(ParseColumns(t).value).Success?
    ensures var c, boxes := ParseColumns(t).value, ToBoxes(ParseColumns(t).value).value;
              && |boxes| == |t| / 5
              && |c.unicodes| == (if |t| % 5 == 0 then |t| / 5 else |t| / 5 + 1)
              && (forall i :: 0 <= i < |c.unicodes| ==> c.unicodes[i] == t[5 * i])
              && (forall i :: 0 <= i < |boxes| ==> boxes[i] == GroupBox(t, i))
  {
    ParseLabelsBoxes(t);
    ParseLabelsUnicodes(t);
  }

  lemma ParseLabelsBoxes(t: seq<string>)
    requires NumericTokens(t) && |t| % 5 <= 1
    ensures ParseColumns(t).Success? && ToBoxes(ParseColumns(t).value).Success?
    ensures var boxes := ToBoxes(ParseColumns(t).value).value;
              && |boxes| == |t| / 5
              && (forall i :: 0 <= i < |boxes| ==> boxes[i] == GroupBox(t, i))
  {
    ParseColumnsShape(t);
    CoordinateColumnSizes(t);
    BoxesOfColumns(t, ParseColumns(t).value);
  }

  /** With 5k or 5k + 1 tokens the four coordinate columns have k entries each. */
  lemma CoordinateColumnSizes(t: seq<string>)
    requires |t| % 5 <= 1
    ensures |Column(t, 1)| == |Column(t, 2)| == |Column(t, 3)| == |Column(t, 4)| == |t| / 5
  {
    ColumnLengths(|t|);
  }

  /** Boxes built from columns that hold the integers of the coordinate tokens. */
  lemma BoxesOfColumns(t: seq<string>, c: Columns)
    requires NumericTokens(t)
    requires |c.x| == |Column(t, 1)| && |c.y| == |Column(t, 2)| && |c.w| == |Column(t, 3)| && |c.h| == |Column(t, 4)|
    requires |c.x| == |c.y| == |c.w| == |c.h|
    requires forall i :: 0 <= i < |c.h| ==>
               && c.x[i] == IntAt(t, 1, i) && c.y[i] == IntAt(t, 2, i)
               && c.w[i] == IntAt(t, 3, i) && c.h[i] == IntAt(t, 4, i)
    ensures ToBoxes(c).Success? && |ToBoxes(c).value| == |c.h|
    ensures forall i :: 0 <= i < |c.h| ==> ToBoxes(c).value[i] == GroupBox(t, i)
  {
  }

  lemma ParseLabelsUnicodes(t: seq<string>)
    requires NumericTokens(t)
    ensures ParseColumns(t).Success?
    ensures var c := ParseColumns(t).value;
              && |c.unicodes| == (if |t| % 5 == 0 then |t| / 5 else |t| / 5 + 1)
              && (forall i :: 0 <= i < |c.unicodes| ==> c.unicodes[i] == t[5 * i])
  {
    ParseColumnsShape(t);
    ColumnLengths(|t|);
    var c := ParseColumns(t).value;
    forall i | 0 <= i < |c.unicodes|
      ensures c.unicodes[i] == t[5 * i]
    {
      assert Column(t, 0)[i] == t[5 * i + 0];
    }
  }

  // ---------------------------------------------------------------- the format being parsed

  /** One character as the Kaggle table describes it: its unicode and its box as (x, y, w, h). */
  datatype Character = Character(unicode: string, x: int, y: int, w: int, h: int)

  /** The character's box in corner form, (x, y, x + w, y + h). */
  function CornerBox(c: Character): Box {
    Box(c.x, c.y, c.x + c.w, c.y + c.h)
  }

  function Unicodes(cs: seq<Character>): seq<string> {
    seq(|cs|, i requires 0 <= i < |cs| => cs[i].unicode)
  }

  function CornerBoxes(cs: seq<Character>): seq<Box> {
    seq(|cs|, i requires 0 <= i < |cs| => CornerBox(cs[i]))
  }

  function CharacterTokens(c: Character): seq<string> {
    [c.unicode, FormatInt(c.x), FormatInt(c.y), FormatInt(c.w), FormatInt(c.h)]
  }

  function LabelTokens(cs: seq<Character>): seq<string> {
    if cs == [] then [] else CharacterTokens(cs[0]) + LabelTokens(cs[1..])
  }

  /** A page's labels string: the characters' five tokens each, joined by spaces. */
  function FormatLabels(cs: seq<Character>): string {
    Unwords(LabelTokens(cs))
  }

  lemma {:induction false} LabelTokensWords(cs: seq<Character>)
    requires forall i :: 0 <= i < |cs| ==> IsWord(cs[i].unicode)
    ensures |LabelTokens(cs)| == 5 * |cs|
    ensures forall p :: 0 <= p < |LabelTokens(cs)| ==> IsWord(LabelTokens(cs)[p])
  {
    if cs != [] {
      LabelTokensWords(cs[1..]);
      FormatIntParses(cs[0].x);
      FormatIntParses(cs[0].y);
      FormatIntParses(cs[0].w);
      FormatIntParses(cs[0].h);
    }
  }

  lemma {:induction false} LabelTokensLength(cs: seq<Character>)
    ensures |LabelTokens(cs)| == 5 * |cs|
  {
    if cs != [] {
      LabelTokensLength(cs[1..]);
    }
  }

  /** Token 5i + j of a list of characters is token j of character i. */
  lemma {:induction false} LabelTokensAt(cs: seq<Character>, i: nat, j: nat)
    requires i < |cs| && j < 5
    ensures |LabelTokens(cs)| == 5 * |cs|
    ensures LabelTokens(cs)[5 * i + j] == CharacterTokens(cs[i])[j]
  {
    LabelTokensLength(cs);
    var head, rest := CharacterTokens(cs[0]), LabelTokens(cs[1..]);
    assert LabelTokens(cs) == head + rest;
    if i > 0 {
      LabelTokensAt(cs[1..], i - 1, j);
      assert 5 * i + j == |head| + (5 * (i - 1) + j);
    }
  }

  /** Column j of the tokens of a list of characters holds token j of each character. */
  lemma LabelTokensColumn(cs: seq<Character>, j: nat)
    requires j < 5
    ensures Column(LabelTokens(cs), j) == seq(|cs|, i requires 0 <= i < |cs| => CharacterTokens(cs[i])[j])
  {
    LabelTokensLength(cs);
    var n := |cs|;
    assert (5 * n + 4 - j) / 5 == n;
    forall i | 0 <= i < n
      ensures Column(LabelTokens(cs), j)[i] == CharacterTokens(cs[i])[j]
    {
      LabelTokensAt(cs, i, j);
    }
  }

  lemma LabelTokensNumeric(cs: seq<Character>)
    ensures NumericTokens(LabelTokens(cs))
    ensures Column(LabelTokens(cs), 0) == Unicodes(cs)
    ensures |Column(LabelTokens(cs), 4)| == |cs|
    ensures forall i :: 0 <= i < |cs| ==> GroupBox(LabelTokens(cs), i) == CornerBox(cs[i])
  {
    LabelTokensColumn(cs, 0);
    CoordinateColumn(cs, 1);
    CoordinateColumn(cs, 2);
    CoordinateColumn(cs, 3);
    CoordinateColumn(cs, 4);
    GroupBoxes(LabelTokens(cs), cs);
  }

  /** Token groups whose coordinate tokens read as the characters' coordinates give their corner boxes. */
  lemma GroupBoxes(t: seq<string>, cs: seq<Character>)
    requires NumericTokens(t)
    requires |Column(t, 1)| == |Column(t, 2)| == |Column(t, 3)| == |Column(t, 4)| == |cs|
    requires forall i :: 0 <= i < |cs| ==> ParseInt(Column(t, 1)[i]) == Some(Coordinate(cs[i], 1))
    requires forall i :: 0 <= i < |cs| ==> ParseInt(Column(t, 2)[i]) == Some(Coordinate(cs[i], 2))
    requires forall i :: 0 <= i < |cs| ==> ParseInt(Column(t, 3)[i]) == Some(Coordinate(cs[i], 3))
    requires forall i :: 0 <= i < |cs| ==> ParseInt(Column(t, 4)[i]) == Some(Coordinate(cs[i], 4))
    ensures forall i :: 0 <= i < |cs| ==> GroupBox(t, i) == CornerBox(cs[i])
  {
    forall i | 0 <= i < |cs|
      ensures GroupBox(t, i) == CornerBox(cs[i])
    {
      assert IntAt(t, 1, i) == cs[i].x && IntAt(t, 2, i) == cs[i].y;
      assert IntAt(t, 3, i) == cs[i].w && IntAt(t, 4, i) == cs[i].h;
    }
  }

  /** Coordinate j of a character, in the order of its tokens: x, y, w, h for j = 1 .. 4. */
  function Coordinate(c: Character, j: nat): int
    requires 1 <= j < 5
  {
    [c.x, c.y, c.w, c.h][j - 1]
  }

  /** Coordinate column j of the tokens of `cs` reads back as coordinate j of each character. */
  lemma CoordinateColumn(cs: seq<Character>, j: nat)
    requires 1 <= j < 5
    ensures |Column(LabelTokens(cs), j)| == |cs|
    ensures AllIntegers(Column(LabelTokens(cs), j))
    ensures forall i :: 0 <= i < |cs| ==> ParseInt(Column(LabelTokens(cs), j)[i]) == Some(Coordinate(cs[i], j))
  {
    LabelTokensColumn(cs, j);
    forall i | 0 <= i < |cs|
      ensures ParseInt(CharacterTokens(cs[i])[j]) == Some(Coordinate(cs[i], j))
    {
      assert CharacterTokens(cs[i])[j] == FormatInt(Coordinate(cs[i], j));
      FormatIntParses(Coordinate(cs[i], j));
    }
  }

  /**
   * Parsing the labels string of a list of characters gives back their unicodes and their boxes
   * in corner form, in order, when every unicode is a single whitespace-free token.
   */
  lemma FormatLabelsRoundTrip(cs: seq<Character>)
    requires forall i :: 0 <= i < |cs| ==> IsWord(cs[i].unicode)
    ensures ParseLabels(Some(FormatLabels(cs))) == Success(Annotation(Unicodes(cs), CornerBoxes(cs)))
  {
    var t := LabelTokens(cs);
    LabelTokensWords(cs);
    WordsOfUnwords(t);
    TokensRoundTrip(FormatLabels(cs), cs);
  }

  /** The parse of any string whose tokens are those of `cs`. */
  lemma TokensRoundTrip(s: string, cs: seq<Character>)
    requires Words(s) == LabelTokens(cs)
    ensures ParseLabels(Some(s)) == Success(Annotation(Unicodes(cs), CornerBoxes(cs)))
  {
    var t := LabelTokens(cs);
    LabelTokensNumeric(cs);
    ParseLabelsOfTokens(s);
    var a := ParseLabels(Some(s)).value;
    assert |a.unicodes| == |cs| by { ColumnLengths(|t|); }
    forall i | 0 <= i < |cs|
      ensures a.unicodes[i] == cs[i].unicode
    {
      assert Column(t, 0)[i] == t[5 * i + 0];
    }
    assert a.unicodes == Unicodes(cs);
    assert a.boxes == CornerBoxes(cs);
  }

  // ---------------------------------------------------------------- the numpy box array

  /** `np.transpose(np.array([x, y, w, h]))`: one row (x, y, w, h) per character. */
  method StackColumns(x: seq<int>, y: seq<int>, w: seq<int>, h: seq<int>) returns (b: array2<int>)
    requires |y| == |x| && |w| == |x| && |h| == |x|
    ensures fresh(b) && b.Length0 == |x| && b.Length1 == 4
    ensures forall i :: 0 <= i < |x| ==> b[i, 0] == x[i] && b[i, 1] == y[i] && b[i, 2] == w[i] && b[i, 3] == h[i]
  {
    b := new int[|x|, 4]((i: nat, j: nat) requires i < |x| && j < 4 => [x[i], y[i], w[i], h[i]][j]);
  }

  /** `bboxes[:, 2:4] += bboxes[:, 0:2]`, in place: rows (x, y, w, h) become (x, y, x + w, y + h). */
  method ToCorners(b: array2<int>)
    requires b.Length1 == 4
    modifies b
    ensures forall i :: 0 <= i < b.Length0 ==>
              && b[i, 0] == old(b[i, 0]) && b[i, 1] == old(b[i, 1])
              && b[i, 2] == old(b[i, 0]) + old(b[i, 2]) && b[i, 3] == old(b[i, 1]) + old(b[i, 3])
  {
    for i := 0 to b.Length0
      invariant forall k :: 0 <= k < i ==>
                  && b[k, 0] == old(b[k, 0]) && b[k, 1] == old(b[k, 1])
                  && b[k, 2] == old(b[k, 0]) + old(b[k, 2]) && b[k, 3] == old(b[k, 1]) + old(b[k, 3])
      invariant forall k, j :: i <= k < b.Length0 && 0 <= j < 4 ==> b[k, j] == old(b[k, j])
    {
      b[i, 2] := b[i, 2] + b[i, 0];
      b[i, 3] := b[i, 3] + b[i, 1];
    }
  }
}
