/**
 * `KuzushijiUnicodeMapping` (kr/datasets/kuzushiji_recognition.py): the class table read from
 * `unicode_translation.csv`, one `unicode,char` line per class after a header line. Line k + 1
 * of the file is class k.
 */
module UnicodeTable {
  import opened Wrappers
  import opened Text
  import opened Values

  /** One line of the table: a unicode code point name and the character it stands for. */
  datatype Entry = Entry(unicode: string, character: string)

  /** The mapping's three dictionaries. */
  datatype Tables = Tables(
    unicodeToChar: map<string, string>,
    indexToUnicode: map<int, string>,
    unicodeToIndex: map<string, int>)
  {
    /** Record entry `e` as class `i`; a unicode seen before is overwritten in the unicode-keyed maps. */
    function Add(i: int, e: Entry): Tables {
      Tables(unicodeToChar[e.unicode := e.character], indexToUnicode[i := e.unicode], unicodeToIndex[e.unicode := i])
    }
  }

  const NoTables := Tables(map[], map[], map[])

  /**
   * `uni, char = line.strip().split(',')`: exactly one comma is needed, otherwise the unpacking
   * raises for line `lineNumber` of the file.
   */
  function ParseEntry(line: string, lineNumber: nat): (r: Result<Entry, Error>)
    ensures r.Success? <==> Occurrences(Strip(line), ',') == 1
    ensures r.Success? ==> r.value.unicode + "," + r.value.character == Strip(line)
    ensures r.Success? ==> ',' !in r.value.unicode && ',' !in r.value.character
    ensures r.Failure? ==> r.error == MalformedLine(lineNumber, Occurrences(Strip(line), ',') + 1)
  {
    var fields := SplitOn(Strip(line), ',');
    SplitOnInverse(Strip(line), ',');
    if |fields| == 2 then
      assert JoinOn(fields, ',') == fields[0] + [','] + fields[1];
      assert 1 < |fields|;
      Success(Entry(fields[0], fields[1]))
    else Failure(MalformedLine(lineNumber, |fields|))
  }

  /** `lines[1:]`: everything after the header line. */
  function Body(lines: seq<string>): seq<string> {
    if lines == [] then [] else lines[1..]
  }

  /** The entries of the lines after the header, in order; the first malformed line raises. */
  function ParseBody(body: seq<string>): Result<seq<Entry>, Error> {
    Collect(LineResults(body))
  }

  /** Each line after the header parsed on its own; line k + 1 of the file is `body[k]`. */
  function LineResults(body: seq<string>): seq<Result<Entry, Error>> {
    seq(|body|, k requires 0 <= k < |body| => ParseEntry(body[k], k + 1))
  }

  /** The dictionaries after the loop over `entries`: entry k is class k, one class per entry. */
  function BuildTables(entries: seq<Entry>): (t: Tables)
    ensures forall k :: k in t.indexToUnicode <==> 0 <= k < |entries|
    ensures |t.indexToUnicode| == |entries|
  {
    if entries == [] then NoTables
    else BuildTables(entries[..|entries| - 1]).Add(|entries| - 1, entries[|entries| - 1])
  }

  /** One more line adds its entry as the next class. */
  lemma BuildTablesSnoc(entries: seq<Entry>, e: Entry)
    ensures |BuildTables(entries).indexToUnicode| == |entries|
    ensures BuildTables(entries + [e]) == BuildTables(entries).Add(|entries|, e)
  {
    assert (entries + [e])[..|entries|] == entries;
  }

  /** The unicodes named by some entry. */
  function UnicodeSet(entries: seq<Entry>): set<string> {
    set k | 0 <= k < |entries| :: entries[k].unicode
  }

  /** No unicode is named by two lines. */
  predicate Distinct(entries: seq<Entry>) {
    forall j, k :: 0 <= j < k < |entries| ==> entries[j].unicode != entries[k].unicode
  }

  /**
   * The invariant the three dictionaries keep: classes are numbered 0 .. n - 1, every class's
   * unicode maps back to a class holding that unicode, at or after it, and the two
   * unicode-keyed dictionaries have the same keys.
   */
  ghost predicate Consistent(t: Tables) {
    && t.unicodeToChar.Keys == t.unicodeToIndex.Keys
    && (forall k :: k in t.indexToUnicode <==> 0 <= k < |t.indexToUnicode|)
    && (forall u :: u in t.unicodeToIndex ==>
          t.unicodeToIndex[u] in t.indexToUnicode && t.indexToUnicode[t.unicodeToIndex[u]] == u)
    && (forall k :: k in t.indexToUnicode ==>
          t.indexToUnicode[k] in t.unicodeToIndex && t.unicodeToIndex[t.indexToUnicode[k]] >= k)
  }

  /** Adding the next class keeps the dictionaries consistent. */
  lemma AddKeepsConsistent(t: Tables, e: Entry)
    requires Consistent(t)
    ensures Consistent(t.Add(|t.indexToUnicode|, e))
  {
    var n := |t.indexToUnicode|;
    assert n !in t.indexToUnicode;
  }

  /** What the loop builds on the class side: class k is the unicode of line k + 1, every line kept. */
  lemma {:induction false} IndexToUnicodeSpec(entries: seq<Entry>)
    ensures var t := BuildTables(entries);
      && |t.indexToUnicode| == |entries|
      && (forall k :: k in t.indexToUnicode <==> 0 <= k < |entries|)
      && (forall k :: 0 <= k < |entries| ==> t.indexToUnicode[k] == entries[k].unicode)
  {
    if entries != [] {
      var init := entries[..|entries| - 1];
      IndexToUnicodeSpec(init);
      assert |init| !in BuildTables(init).indexToUnicode;
    }
  }

  /** What the loop builds on the unicode side: exactly the unicodes some line names. */
  lemma {:induction false} UnicodeKeysSpec(entries: seq<Entry>)
    ensures BuildTables(entries).unicodeToIndex.Keys == UnicodeSet(entries)
    ensures BuildTables(entries).unicodeToChar.Keys == UnicodeSet(entries)
  {
    if entries != [] {
      var init := entries[..|entries| - 1];
      UnicodeKeysSpec(init);
      UnicodeSetSnoc(entries);
    }
  }

  /** A unicode maps to the LAST line that names it, and to that line's character. */
  lemma {:induction false} LaterLineWins(entries: seq<Entry>, u: string)
    requires u in BuildTables(entries).unicodeToIndex
    ensures var t := BuildTables(entries); var k := t.unicodeToIndex[u];
      && 0 <= k < |entries|
      && entries[k].unicode == u
      && u in t.unicodeToChar && t.unicodeToChar[u] == entries[k].character
      && forall j :: k < j < |entries| ==> entries[j].unicode != u
  {
    var init, last := entries[..|entries| - 1], entries[|entries| - 1];
    if u != last.unicode {
      LaterLineWins(init, u);
      var k := BuildTables(init).unicodeToIndex[u];
      assert init[k] == entries[k];
      forall j | k < j < |entries| ensures entries[j].unicode != u {
        if j < |init| { assert init[j] == entries[j]; }
      }
    }
  }

  lemma BuildTablesConsistent(entries: seq<Entry>)
    ensures Consistent(BuildTables(entries))
  {
    IndexToUnicodeSpec(entries);
    UnicodeKeysSpec(entries);
    var t := BuildTables(entries);
    forall u | u in t.unicodeToIndex
      ensures t.unicodeToIndex[u] in t.indexToUnicode && t.indexToUnicode[t.unicodeToIndex[u]] == u
    {
      LaterLineWins(entries, u);
    }
    forall k | k in t.indexToUnicode
      ensures t.indexToUnicode[k] in t.unicodeToIndex && t.unicodeToIndex[t.indexToUnicode[k]] >= k
    {
      assert t.indexToUnicode[k] in UnicodeSet(entries);
    }
  }

  /** Looking a unicode up and back gives the unicode again. */
  lemma UnicodeRoundTrip(entries: seq<Entry>)
    ensures var t := BuildTables(entries);
      forall u :: u in t.unicodeToIndex ==>
        t.unicodeToIndex[u] in t.indexToUnicode && t.indexToUnicode[t.unicodeToIndex[u]] == u
  {
    BuildTablesConsistent(entries);
  }

  /**
   * Looking a class up and back gives the class again for every class exactly when no two lines
   * name the same unicode; otherwise the earlier of two such lines comes back as the later one.
   */
  lemma ClassRoundTrip(entries: seq<Entry>)
    ensures var t := BuildTables(entries);
      forall k :: 0 <= k < |entries| ==> k in t.indexToUnicode && t.indexToUnicode[k] in t.unicodeToIndex
    ensures var t := BuildTables(entries);
      (forall k :: 0 <= k < |entries| ==> t.unicodeToIndex[t.indexToUnicode[k]] == k) <==> Distinct(entries)
  {
    var t := BuildTables(entries);
    forall k | 0 <= k < |entries|
      ensures k in t.indexToUnicode && t.indexToUnicode[k] in t.unicodeToIndex
    {
      LineClass(entries, k);
      UnicodeClass(entries, k);
    }
    if Distinct(entries) {
      forall k | 0 <= k < |entries| ensures t.unicodeToIndex[t.indexToUnicode[k]] == k {
        LineClass(entries, k);
        UnicodeClass(entries, k);
      }
    } else {
      var j, k :| 0 <= j < k < |entries| && entries[j].unicode == entries[k].unicode;
      LineClass(entries, j);
      UnicodeClass(entries, k);
      assert t.unicodeToIndex[t.indexToUnicode[j]] != j;
    }
  }

  /** Line k + 1 is class k. */
  lemma LineClass(entries: seq<Entry>, k: nat)
    requires k < |entries|
    ensures k in BuildTables(entries).indexToUnicode && BuildTables(entries).indexToUnicode[k] == entries[k].unicode
  {
    IndexToUnicodeSpec(entries);
  }

  /** The unicode of line k + 1 has a class: a line at or after it naming the same unicode. */
  lemma UnicodeClass(entries: seq<Entry>, k: nat)
    requires k < |entries|
    ensures var t, u := BuildTables(entries), entries[k].unicode;
      && u in t.unicodeToIndex
      && k <= t.unicodeToIndex[u] < |entries|
      && entries[t.unicodeToIndex[u]].unicode == u
  {
    UnicodeKeysSpec(entries);
    assert entries[k].unicode in UnicodeSet(entries);
    LaterLineWins(entries, entries[k].unicode);
  }

  lemma {:induction false} UnicodeSetSize(entries: seq<Entry>)
    ensures |UnicodeSet(entries)| <= |entries|
    ensures |UnicodeSet(entries)| == |entries| <==> Distinct(entries)
  {
    if entries != [] {
      var init, last := entries[..|entries| - 1], entries[|entries| - 1];
      UnicodeSetSize(init);
      UnicodeSetSnoc(entries);
      DistinctSnoc(entries);
    }
  }

  lemma UnicodeSetSnoc(entries: seq<Entry>)
    requires entries != []
    ensures UnicodeSet(entries) == UnicodeSet(entries[..|entries| - 1]) + {entries[|entries| - 1].unicode}
  {
    var init := entries[..|entries| - 1];
    forall k | 0 <= k < |init| ensures init[k] == entries[k] {}
  }

  lemma DistinctSnoc(entries: seq<Entry>)
    requires entries != []
    ensures var init := entries[..|entries| - 1];
      Distinct(entries) <==> Distinct(init) && entries[|entries| - 1].unicode !in UnicodeSet(init)
  {
    var init, last := entries[..|entries| - 1], entries[|entries| - 1];
    if last.unicode in UnicodeSet(init) {
      var j :| 0 <= j < |init| && init[j].unicode == last.unicode;
      assert entries[j].unicode == entries[|entries| - 1].unicode;
    } else if Distinct(init) {
      forall j, k | 0 <= j < k < |entries|
        ensures entries[j].unicode != entries[k].unicode
      {
        if k < |init| {
          assert init[j] == entries[j] && init[k] == entries[k];
        } else {
          assert entries[j].unicode in UnicodeSet(init);
        }
      }
    } else {
      var j, k :| 0 <= j < k < |init| && init[j].unicode == init[k].unicode;
      assert entries[j].unicode == entries[k].unicode;
    }
  }

  /**
   * `len(mapping)` is the number of distinct unicodes: the number of lines when they are distinct,
   * fewer otherwise.
   */
  lemma LengthCountsUnicodes(entries: seq<Entry>)
    ensures |BuildTables(entries).unicodeToChar| == |UnicodeSet(entries)| <= |entries|
    ensures |BuildTables(entries).unicodeToChar| == |entries| <==> Distinct(entries)
  {
    UnicodeKeysSpec(entries);
    UnicodeSetSize(entries);
    assert BuildTables(entries).unicodeToChar.Keys == UnicodeSet(entries);
  }

  /**
   * Every class index the mapping hands out is below `len(mapping)` exactly when the unicodes are
   * distinct; with a duplicate, the last line's class is past the end of a table of that length.
   */
  lemma IndicesBelowLength(entries: seq<Entry>)
    ensures var t := BuildTables(entries);
      (forall u :: u in t.unicodeToIndex ==> t.unicodeToIndex[u] < |t.unicodeToChar|) <==> Distinct(entries)
  {
    UnicodeKeysSpec(entries);
    LengthCountsUnicodes(entries);
    var t := BuildTables(entries);
    if !Distinct(entries) {
      var last := entries[|entries| - 1].unicode;
      assert last in UnicodeSet(entries);
      LaterLineWins(entries, last);
      assert t.unicodeToIndex[last] == |entries| - 1;
    }
  }

  /** The mapping object; its three dictionaries are filled once, by `Load`. */
  class UnicodeMapping {
    var unicodeToChar: map<string, string>
    var indexToUnicode: map<int, string>
    var unicodeToIndex: map<string, int>

    function Contents(): Tables
      reads this
    {
      Tables(unicodeToChar, indexToUnicode, unicodeToIndex)
    }

    ghost predicate Valid()
      reads this
    {
      Consistent(Contents())
    }

    /** Three empty dictionaries. */
    constructor ()
      ensures Contents() == NoTables && Valid()
    {
      unicodeToChar, indexToUnicode, unicodeToIndex := map[], map[], map[];
    }

    /** The loop body: class `i` is entry `e`. */
    method Insert(i: int, e: Entry)
      requires i == |indexToUnicode|
      modifies this
      ensures Contents() == old(Contents()).Add(i, e)
    {
      unicodeToChar := unicodeToChar[e.unicode := e.character];
      indexToUnicode := indexToUnicode[i := e.unicode];
      unicodeToIndex := unicodeToIndex[e.unicode := i];
    }

    /**
     * `len(mapping)`: the size of the unicode-to-character dictionary, which is the number of
     * unicodes that have a class.
     */
    function Length(): (n: nat)
      reads this
      ensures Valid() ==> n == |unicodeToIndex|
    {
      |unicodeToChar|
    }

    /** `unicode_to_index(u)`; `None` is the KeyError for a unicode no line names. */
    function UnicodeToIndex(u: string): (r: Option<int>)
      reads this
      requires Valid()
      ensures r.None? <==> forall k :: k in indexToUnicode ==> indexToUnicode[k] != u
      ensures r.Some? ==> 0 <= r.value < |indexToUnicode| && indexToUnicode[r.value] == u
    {
      if u in unicodeToIndex then Some(unicodeToIndex[u]) else None
    }

    /** `index_to_unicode(k)`; `None` is the KeyError for a class outside 0 .. n - 1. */
    function IndexToUnicode(k: int): (r: Option<string>)
      reads this
      requires Valid()
      ensures r.Some? <==> 0 <= k < |indexToUnicode|
      ensures r.Some? ==> r.value in unicodeToIndex && unicodeToIndex[r.value] >= k
    {
      if k in indexToUnicode then Some(indexToUnicode[k]) else None
    }

    /** `unicode_to_char(u)`: defined for exactly the unicodes that have a class. */
    function UnicodeToChar(u: string): (r: Option<string>)
      reads this
      requires Valid()
      ensures r.Some? <==> u in unicodeToIndex
    {
      if u in unicodeToChar then Some(unicodeToChar[u]) else None
    }

    /** The loop of the constructor: one class per line, in order, stopping at the first malformed line. */
    method Fill(body: seq<string>) returns (failure: Option<Error>)
      requires Contents() == NoTables
      modifies this
      ensures failure.None? <==> ParseBody(body).Success?
      ensures failure.Some? ==> failure.value == ParseBody(body).error
      ensures failure.None? ==> Contents() == BuildTables(ParseBody(body).value)
    {
      ghost var results := LineResults(body);
      ghost var entries: seq<Entry> := [];
      for i := 0 to |body|
        invariant |entries| == i
        invariant Collect(results[..i]) == Success(entries)
        invariant Contents() == BuildTables(entries)
      {
        var e := ParseEntry(body[i], i + 1);
        assert e == results[i];
        if e.Failure? {
          CollectPrefixFailure(results, i);
          return Some(e.error);
        }
        CollectPrefixSuccess(results, i, entries, e.value);
        BuildTablesSnoc(entries, e.value);
        Insert(i, e.value);
        entries := entries + [e.value];
      }
      assert results[..|body|] == results;
      failure := None;
    }
  }

  /** The dictionaries a table whose lines are all well formed loads into. */
  ghost function Loaded(lines: seq<string>): (t: Tables)
    requires ParseBody(Body(lines)).Success?
    ensures Consistent(t)
  {
    BuildTablesConsistent(ParseBody(Body(lines)).value);
    BuildTables(ParseBody(Body(lines)).value)
  }

  /** The constructor: read the lines of the table, skip the header, fill the dictionaries line by line. */
  method Load(lines: seq<string>) returns (r: Result<UnicodeMapping, Error>)
    ensures r.Success? <==> ParseBody(Body(lines)).Success?
    ensures r.Failure? ==> r.error == ParseBody(Body(lines)).error
    ensures r.Success? ==> r.value.Valid() && r.value.Contents() == BuildTables(ParseBody(Body(lines)).value)
  {
    var m := new UnicodeMapping();
    var failure := m.Fill(Body(lines));
    if failure.Some? {
      return Failure(failure.value);
    }
    BuildTablesConsistent(ParseBody(Body(lines)).value);
    r := Success(m);
  }
}
