/** The phrase dictionary and the user's store (phrase_db.py). Each SQLite
    table is held as its rows in rowid order; a query is a filter, a stable
    sort by its `ORDER BY` and a `LIMIT`. */
module PhraseDb {
  import opened Common
  import opened Sorting
  import opened PyStr
  import opened Table

  /** A row of the `phrases` table. `length` is the phrase's length in
      characters, stored beside it. */
  datatype PhraseRow = PhraseRow(zhuyin: string, phrase: string, frequency: int, length: int)

  /** The columns of the `UNIQUE(zhuyin, phrase)` constraint. */
  function PhraseKey(row: PhraseRow): (string, string) {
    (row.zhuyin, row.phrase)
  }

  predicate LengthsStored(rows: seq<PhraseRow>) {
    forall i :: 0 <= i < |rows| ==> rows[i].length == |rows[i].phrase|
  }

  /** The `WHERE` clauses of the queries on `phrases`. */
  datatype Criterion =
    | ZhuyinIs(zhuyin: string)             // zhuyin = ?
    | ZhuyinStartsWith(prefix: string)     // zhuyin LIKE prefix || '%'
    | SingleCharOf(zhuyin: string)         // zhuyin = ? AND length = 1
    | Continues(lastChar: string)          // phrase LIKE last_char || '%' AND length > 1
    | Characters                           // length = 1
    | Words                                // length > 1

  predicate Matches(c: Criterion, row: PhraseRow) {
    match c
    case ZhuyinIs(z) => row.zhuyin == z
    case ZhuyinStartsWith(p) => IsPrefix(p, row.zhuyin)
    case SingleCharOf(z) => row.zhuyin == z && row.length == 1
    case Continues(c) => IsPrefix(c, row.phrase) && row.length > 1
    case Characters => row.length == 1
    case Words => row.length > 1
  }

  /** The rows satisfying `c`, in rowid order. */
  function Select(rows: seq<PhraseRow>, c: Criterion): (r: seq<PhraseRow>)
    ensures forall x :: x in r <==> x in rows && Matches(c, x)
    ensures forall x :: Matches(c, x) ==> multiset(r)[x] == multiset(rows)[x]
  {
    Filter(row => Matches(c, row), rows)
  }

  /** `ORDER BY frequency DESC, length ASC`. */
  predicate FreqThenShorter(a: PhraseRow, b: PhraseRow) {
    a.frequency > b.frequency || (a.frequency == b.frequency && a.length <= b.length)
  }

  /** `ORDER BY length ASC, frequency DESC`. */
  predicate ShorterThenFreq(a: PhraseRow, b: PhraseRow) {
    a.length < b.length || (a.length == b.length && a.frequency >= b.frequency)
  }

  /** `ORDER BY frequency DESC`. */
  predicate ByFrequency(a: PhraseRow, b: PhraseRow) {
    a.frequency >= b.frequency
  }

  lemma PhraseOrdersTotal()
    ensures TotalPreorder(FreqThenShorter)
    ensures TotalPreorder(ShorterThenFreq)
    ensures TotalPreorder(ByFrequency)
  {
  }

  datatype Stats = Stats(total: nat, characters: nat, words: nat)

  /** `phrase` with `zhuyin` and `frequency`, as one line of a dictionary
      file: phrase, zhuyin and frequency separated by tabs. */
  function FormatLine(phrase: string, zhuyin: string, frequency: int): string {
    phrase + "\t" + zhuyin + "\t" + IntToString(frequency)
  }

  /** `line.strip().split('\t')`. */
  function Fields(line: string): seq<string> {
    SplitOn(Strip(line), '\t')
  }

  /** What the importer makes of one line of a dictionary file. */
  datatype LineEntry = Skip | Entry(row: PhraseRow) | BadFrequency

  /** One line of `import_from_text`: a blank or `#` line is skipped, and so
      is a line with fewer than two tab-separated fields; the third field,
      when present, must be an integer. */
  function ParseLine(line: string): (e: LineEntry)
    ensures e.Entry? ==> e.row.length == |e.row.phrase| && '\t' !in e.row.phrase && '\t' !in e.row.zhuyin
    ensures e.Skip? <==> Strip(line) == "" || Strip(line)[0] == '#' || '\t' !in Strip(line)
    ensures !e.Skip? ==> |Fields(line)| >= 2
    ensures e.Entry? ==> e.row.phrase == Fields(line)[0] && e.row.zhuyin == Fields(line)[1]
    ensures !e.Skip? && |Fields(line)| == 2 ==> e.Entry? && e.row.frequency == 100
    ensures !e.Skip? && |Fields(line)| > 2 ==>
              (e.BadFrequency? <==> ParseInt(Fields(line)[2]).None?) &&
              (e.Entry? ==> e.row.frequency == ParseInt(Fields(line)[2]).value)
  {
    var t := Strip(line);
    if t == "" || t[0] == '#' then Skip
    else
      var parts := SplitOn(t, '\t');
      SplitOnOnePiece(t, '\t');
      if |parts| < 2 then Skip
      else if |parts| > 2 then
          match ParseInt(parts[2])
          case None => BadFrequency
          case Some(f) => Entry(PhraseRow(parts[1], parts[0], f, |parts[0]|))
        else Entry(PhraseRow(parts[1], parts[0], 100, |parts[0]|))
  }

  /** A line written by `FormatLine` is read back as that row. */
  lemma ParseFormatLine(phrase: string, zhuyin: string, frequency: int)
    requires phrase != "" && !IsSpace(phrase[0]) && phrase[0] != '#'
    requires '\t' !in phrase && '\t' !in zhuyin
    ensures ParseLine(FormatLine(phrase, zhuyin, frequency))
            == Entry(PhraseRow(zhuyin, phrase, frequency, |phrase|))
  {
    var line := FormatLine(phrase, zhuyin, frequency);
    FormatLineFields(phrase, zhuyin, frequency);
    ParseIntToString(frequency);
    assert line[0] == phrase[0];
    ParseThreeFields(line, phrase, zhuyin, IntToString(frequency), frequency);
  }

  /** A stripped, uncommented line of three fields whose third is an integer
      is an entry. */
  lemma ParseThreeFields(line: string, phrase: string, zhuyin: string, n: string, frequency: int)
    requires Strip(line) == line && line != "" && line[0] != '#'
    requires SplitOn(line, '\t') == [phrase, zhuyin, n] && ParseInt(n) == Some(frequency)
    ensures ParseLine(line) == Entry(PhraseRow(zhuyin, phrase, frequency, |phrase|))
  {
  }

  lemma FormatLineFields(phrase: string, zhuyin: string, frequency: int)
    requires phrase != "" && !IsSpace(phrase[0])
    requires '\t' !in phrase && '\t' !in zhuyin
    ensures Strip(FormatLine(phrase, zhuyin, frequency)) == FormatLine(phrase, zhuyin, frequency)
    ensures SplitOn(FormatLine(phrase, zhuyin, frequency), '\t') == [phrase, zhuyin, IntToString(frequency)]
  {
    var n := IntToString(frequency);
    IntToStringChars(frequency);
    FormatLineStrip(phrase, zhuyin, n);
    assert '\t' !in n;
    FormatLineSplit(phrase, zhuyin, n);
  }

  lemma FormatLineStrip(phrase: string, zhuyin: string, n: string)
    requires phrase != "" && !IsSpace(phrase[0])
    requires n != "" && IsDigit(n[|n| - 1])
    ensures Strip(phrase + "\t" + zhuyin + "\t" + n) == phrase + "\t" + zhuyin + "\t" + n
  {
    var line := phrase + "\t" + zhuyin + "\t" + n;
    assert line[0] == phrase[0] && line[|line| - 1] == n[|n| - 1];
    StripFixed(line);
  }

  lemma FormatLineSplit(phrase: string, zhuyin: string, n: string)
    requires '\t' !in phrase && '\t' !in zhuyin && '\t' !in n
    ensures SplitOn(phrase + "\t" + zhuyin + "\t" + n, '\t') == [phrase, zhuyin, n]
  {
    SplitOnNone(n, '\t');
    assert phrase + "\t" + zhuyin + "\t" + n == phrase + ['\t'] + (zhuyin + ['\t'] + n);
    SplitOnFirst(phrase, '\t', zhuyin + ['\t'] + n);
    SplitOnFirst(zhuyin, '\t', n);
  }

  /** Every line of a file, as the importer reads it. */
  function ParseLines(lines: seq<string>): (r: seq<LineEntry>)
    ensures |r| == |lines|
    ensures forall i :: 0 <= i < |lines| ==> r[i] == ParseLine(lines[i])
  {
    seq(|lines|, i requires 0 <= i < |lines| => ParseLine(lines[i]))
  }

  /** The entries of one file applied in order, inside one transaction:
      `None` at a bad frequency, in which case nothing is committed. Each
      entry is an `INSERT OR IGNORE`. */
  function ImportEntries(rows: seq<PhraseRow>, es: seq<LineEntry>): (r: Option<seq<PhraseRow>>)
    decreases |es|
  {
    if es == [] then Some(rows)
    else
      match es[0]
      case Skip => ImportEntries(rows, es[1..])
      case BadFrequency => None
      case Entry(row) => ImportEntries(InsertOrIgnore(PhraseKey, rows, row), es[1..])
  }

  /** One entry of an import: a bad frequency aborts it, anything else
      moves on to the next entry from the table after this one. */
  lemma ImportEntriesStep(rows: seq<PhraseRow>, es: seq<LineEntry>)
    requires es != []
    ensures es[0].BadFrequency? ==> ImportEntries(rows, es).None?
    ensures !es[0].BadFrequency? ==> ImportEntries(rows, es) == ImportEntries(AfterEntry(rows, es[0]), es[1..])
  {
  }

  /** The entries fail exactly when one of them is a bad frequency. */
  lemma {:induction false} EntriesFailIff(rows: seq<PhraseRow>, es: seq<LineEntry>)
    ensures ImportEntries(rows, es).None? <==> exists i :: 0 <= i < |es| && es[i].BadFrequency?
    decreases |es|
  {
    if es != [] {
      ImportEntriesStep(rows, es);
      if !es[0].BadFrequency? {
        var tail := es[1..];
        EntriesFailIff(AfterEntry(rows, es[0]), tail);
        if exists i :: 0 <= i < |es| && es[i].BadFrequency? {
          var i :| 0 <= i < |es| && es[i].BadFrequency?;
          assert i > 0 && tail[i - 1] == es[i];
        }
        if exists i :: 0 <= i < |tail| && tail[i].BadFrequency? {
          var i :| 0 <= i < |tail| && tail[i].BadFrequency?;
          assert es[i + 1] == tail[i];
        }
      }
    }
  }

  /** `import_from_text` rolls back exactly when some line that is not
      skipped has a third field that is not an integer. */
  lemma ImportFailsIff(rows: seq<PhraseRow>, lines: seq<string>)
    ensures ImportAll(rows, lines).None? <==> exists i :: 0 <= i < |lines| && ParseLine(lines[i]).BadFrequency?
  {
    var es := ParseLines(lines);
    EntriesFailIff(rows, es);
    MappedExists(ParseLine, (e: LineEntry) => e.BadFrequency?, lines, es);
  }

  /** Some image satisfies `p` exactly when `p` holds of `f` at some input. */
  lemma MappedExists<A, B>(f: A -> B, p: B -> bool, xs: seq<A>, ys: seq<B>)
    requires |ys| == |xs| && forall i :: 0 <= i < |xs| ==> ys[i] == f(xs[i])
    ensures (exists i :: 0 <= i < |ys| && p(ys[i])) <==> exists i :: 0 <= i < |xs| && p(f(xs[i]))
  {
    if exists i :: 0 <= i < |ys| && p(ys[i]) {
      var i :| 0 <= i < |ys| && p(ys[i]);
      assert p(f(xs[i]));
    }
  }

  /** `import_from_text` over the lines of a file. */
  function ImportAll(rows: seq<PhraseRow>, lines: seq<string>): (r: Option<seq<PhraseRow>>) {
    ImportEntries(rows, ParseLines(lines))
  }

  /** The table after one entry that is not a bad frequency. */
  function AfterEntry(rows: seq<PhraseRow>, e: LineEntry): seq<PhraseRow> {
    match e
    case Entry(row) => InsertOrIgnore(PhraseKey, rows, row)
    case _ => rows
  }

  predicate EntriesWellFormed(es: seq<LineEntry>) {
    forall i :: 0 <= i < |es| && es[i].Entry? ==> es[i].row.length == |es[i].row.phrase|
  }

  lemma LengthsStoredAppend(rows: seq<PhraseRow>, row: PhraseRow)
    requires row.length == |row.phrase|
    ensures LengthsStored(rows) ==> LengthsStored(rows + [row])
  {
    var after := rows + [row];
    assert forall i :: 0 <= i < |rows| ==> after[i] == rows[i];
  }

  lemma AfterEntryKeeps(rows: seq<PhraseRow>, e: LineEntry)
    requires e.Entry? ==> e.row.length == |e.row.phrase|
    ensures IsPrefix(rows, AfterEntry(rows, e))
    ensures UniqueBy(PhraseKey, rows) ==> UniqueBy(PhraseKey, AfterEntry(rows, e))
    ensures LengthsStored(rows) ==> LengthsStored(AfterEntry(rows, e))
    ensures e.Entry? ==> LookupBy(PhraseKey, AfterEntry(rows, e), PhraseKey(e.row)).Some?
  {
    match e
    case Entry(row) =>
      InsertOrIgnoreLookup(PhraseKey, rows, row, PhraseKey(row));
      if LookupBy(PhraseKey, rows, PhraseKey(row)).None? {
        assert (rows + [row])[..|rows|] == rows;
        LengthsStoredAppend(rows, row);
      }
    case _ =>
      assert AfterEntry(rows, e) == rows;
  }

  /** A row present before a later insert-or-ignore is still found. */
  lemma PrefixKeepsLookup(rows: seq<PhraseRow>, more: seq<PhraseRow>, k: (string, string))
    requires IsPrefix(rows, more) && LookupBy(PhraseKey, rows, k).Some?
    ensures LookupBy(PhraseKey, more, k).Some?
  {
    var x := LookupBy(PhraseKey, rows, k).value;
    var j :| 0 <= j < |rows| && rows[j] == x;
    assert more[j] == x;
  }

  lemma {:induction false} EntriesKeepRows(rows: seq<PhraseRow>, es: seq<LineEntry>)
    requires ImportEntries(rows, es).Some? && EntriesWellFormed(es)
    ensures IsPrefix(rows, ImportEntries(rows, es).value)
    ensures UniqueBy(PhraseKey, rows) ==> UniqueBy(PhraseKey, ImportEntries(rows, es).value)
    ensures LengthsStored(rows) ==> LengthsStored(ImportEntries(rows, es).value)
    decreases |es|
  {
    if es != [] {
      var next := AfterEntry(rows, es[0]);
      assert ImportEntries(rows, es) == ImportEntries(next, es[1..]);
      AfterEntryKeeps(rows, es[0]);
      EntriesKeepRows(next, es[1..]);
      var out := ImportEntries(rows, es).value;
      assert out[..|rows|] == out[..|next|][..|rows|];
    }
  }

  lemma {:induction false} EntriesFound(rows: seq<PhraseRow>, es: seq<LineEntry>, i: nat)
    requires ImportEntries(rows, es).Some? && EntriesWellFormed(es)
    requires i < |es| && es[i].Entry?
    ensures LookupBy(PhraseKey, ImportEntries(rows, es).value, PhraseKey(es[i].row)).Some?
    decreases i
  {
    var next := AfterEntry(rows, es[0]);
    assert ImportEntries(rows, es) == ImportEntries(next, es[1..]);
    if i == 0 {
      AfterEntryKeeps(rows, es[0]);
      EntriesKeepRows(next, es[1..]);
      PrefixKeepsLookup(next, ImportEntries(next, es[1..]).value, PhraseKey(es[0].row));
    } else {
      assert es[1..][i - 1] == es[i];
      EntriesFound(next, es[1..], i - 1);
    }
  }

  /** An import that succeeds keeps every existing row, unchanged and in
      place, and keeps the UNIQUE constraint and the length column. */
  lemma ImportKeepsRows(rows: seq<PhraseRow>, lines: seq<string>)
    requires ImportAll(rows, lines).Some?
    ensures IsPrefix(rows, ImportAll(rows, lines).value)
    ensures UniqueBy(PhraseKey, rows) ==> UniqueBy(PhraseKey, ImportAll(rows, lines).value)
    ensures LengthsStored(rows) ==> LengthsStored(ImportAll(rows, lines).value)
  {
    EntriesKeepRows(rows, ParseLines(lines));
  }

  /** A key already present keeps the row it finds in every longer table. */
  lemma {:induction false} PrefixLookupSame(rows: seq<PhraseRow>, more: seq<PhraseRow>, k: (string, string))
    requires IsPrefix(rows, more) && LookupBy(PhraseKey, rows, k).Some?
    ensures LookupBy(PhraseKey, more, k) == LookupBy(PhraseKey, rows, k)
  {
    if PhraseKey(rows[0]) != k {
      assert more[1..][..|rows| - 1] == rows[1..];
      PrefixLookupSame(rows[1..], more[1..], k);
    }
  }

  /** INSERT OR IGNORE over the whole import: a pair already in the table
      keeps the row it had. */
  lemma EntriesKeepExisting(rows: seq<PhraseRow>, es: seq<LineEntry>, k: (string, string))
    requires ImportEntries(rows, es).Some? && EntriesWellFormed(es)
    requires LookupBy(PhraseKey, rows, k).Some?
    ensures LookupBy(PhraseKey, ImportEntries(rows, es).value, k) == LookupBy(PhraseKey, rows, k)
  {
    EntriesKeepRows(rows, es);
    PrefixLookupSame(rows, ImportEntries(rows, es).value, k);
  }

  /** No entry before index `i` carries the pair `k`. */
  predicate NoEarlierEntry(es: seq<LineEntry>, i: nat, k: (string, string))
    requires i <= |es|
  {
    forall j :: 0 <= j < i && es[j].Entry? ==> PhraseKey(es[j].row) != k
  }

  /** One entry: it inserts a new pair it carries, and leaves every other
      pair as it was. */
  lemma AfterEntryLookup(rows: seq<PhraseRow>, e: LineEntry, k: (string, string))
    ensures e.Entry? && PhraseKey(e.row) == k && LookupBy(PhraseKey, rows, k).None? ==>
      LookupBy(PhraseKey, AfterEntry(rows, e), k) == Some(e.row)
    ensures !(e.Entry? && PhraseKey(e.row) == k) ==>
      LookupBy(PhraseKey, AfterEntry(rows, e), k) == LookupBy(PhraseKey, rows, k)
  {
    if e.Entry? {
      InsertOrIgnoreLookup(PhraseKey, rows, e.row, k);
    }
  }

  /** INSERT OR IGNORE over the whole import: a pair new to the table gets
      the row of the first entry that carries it. */
  lemma {:induction false} EntriesKeepFirst(rows: seq<PhraseRow>, es: seq<LineEntry>, i: nat)
    requires ImportEntries(rows, es).Some? && EntriesWellFormed(es)
    requires i < |es| && es[i].Entry?
    requires LookupBy(PhraseKey, rows, PhraseKey(es[i].row)).None?
    requires NoEarlierEntry(es, i, PhraseKey(es[i].row))
    ensures LookupBy(PhraseKey, ImportEntries(rows, es).value, PhraseKey(es[i].row)) == Some(es[i].row)
    decreases i
  {
    var row := es[i].row;
    var k := PhraseKey(row);
    var next := AfterEntry(rows, es[0]);
    var tail := es[1..];
    ImportEntriesStep(rows, es);
    assert ImportEntries(rows, es) == ImportEntries(next, tail);
    AfterEntryLookup(rows, es[0], k);
    if i == 0 {
      EntriesKeepExisting(next, tail, k);
    } else {
      assert tail[i - 1] == es[i];
      assert NoEarlierEntry(tail, i - 1, k) by {
        assert forall j :: 0 <= j < i - 1 ==> tail[j] == es[j + 1];
      }
      EntriesKeepFirst(next, tail, i - 1);
    }
  }

  /** After an import that succeeds, the (zhuyin, phrase) pair of every
      well-formed line is in the table: with the row it had before the
      import when it was already there, and otherwise with the row of this
      line when no earlier line carries the pair, since INSERT OR IGNORE
      keeps the first occurrence. */
  lemma ImportFindsEntries(rows: seq<PhraseRow>, lines: seq<string>, i: nat)
    requires ImportAll(rows, lines).Some?
    requires i < |lines| && ParseLine(lines[i]).Entry?
    ensures LookupBy(PhraseKey, ImportAll(rows, lines).value, PhraseKey(ParseLine(lines[i]).row)).Some?
    ensures LookupBy(PhraseKey, rows, PhraseKey(ParseLine(lines[i]).row)).Some? ==>
      LookupBy(PhraseKey, ImportAll(rows, lines).value, PhraseKey(ParseLine(lines[i]).row))
        == LookupBy(PhraseKey, rows, PhraseKey(ParseLine(lines[i]).row))
    ensures LookupBy(PhraseKey, rows, PhraseKey(ParseLine(lines[i]).row)).None? &&
            (forall j :: 0 <= j < i && ParseLine(lines[j]).Entry? ==>
               PhraseKey(ParseLine(lines[j]).row) != PhraseKey(ParseLine(lines[i]).row)) ==>
      LookupBy(PhraseKey, ImportAll(rows, lines).value, PhraseKey(ParseLine(lines[i]).row)) == Some(ParseLine(lines[i]).row)
  {
    var es := ParseLines(lines);
    var k := PhraseKey(es[i].row);
    EntriesFound(rows, es, i);
    if LookupBy(PhraseKey, rows, k).Some? {
      EntriesKeepExisting(rows, es, k);
    } else if NoEarlierEntry(es, i, k) {
      EntriesKeepFirst(rows, es, i);
    }
  }

  /** The `phrases` table of one database file. */
  class PhraseDatabase {
    var rows: seq<PhraseRow>

    /** The UNIQUE constraint, and every `length` is its phrase's length. */
    ghost predicate Valid()
      reads this
    {
      UniqueBy(PhraseKey, rows) && LengthsStored(rows)
    }

    /** Opens a database whose table already holds `initial`. */
    constructor (initial: seq<PhraseRow>)
      requires UniqueBy(PhraseKey, initial) && LengthsStored(initial)
      ensures Valid() && rows == initial
    {
      rows := initial;
    }

    /** `search`: the rows whose zhuyin is exactly `zhuyin`, most frequent
        first and shorter first among equals, at most `limit` of them. */
    function Search(zhuyin: string, limit: int := 50): (r: seq<PhraseRow>)
      reads this
      ensures IsTopK(FreqThenShorter, Select(rows, ZhuyinIs(zhuyin)), r, limit)
    {
      PhraseOrdersTotal();
      TopK(FreqThenShorter, Select(rows, ZhuyinIs(zhuyin)), limit)
    }

    /** `search_prefix`: the rows whose zhuyin starts with `prefix` (exact
        matches included), shorter first and more frequent first among
        equals. */
    function SearchPrefix(prefix: string, limit: int := 50): (r: seq<PhraseRow>)
      reads this
      ensures IsTopK(ShorterThenFreq, Select(rows, ZhuyinStartsWith(prefix)), r, limit)
    {
      PhraseOrdersTotal();
      TopK(ShorterThenFreq, Select(rows, ZhuyinStartsWith(prefix)), limit)
    }

    /** `search_without_tone`: the pattern is the key followed by `%`, so the
        same rows as a prefix search, ordered as in `Search`. */
    function SearchWithoutTone(zhuyin: string, limit: int := 50): (r: seq<PhraseRow>)
      reads this
      ensures IsTopK(FreqThenShorter, Select(rows, ZhuyinStartsWith(zhuyin)), r, limit)
    {
      PhraseOrdersTotal();
      TopK(FreqThenShorter, Select(rows, ZhuyinStartsWith(zhuyin)), limit)
    }

    /** `get_single_char`: one-character rows with exactly this zhuyin, most
        frequent first. */
    function GetSingleChar(zhuyin: string, limit: int := 20): (r: seq<PhraseRow>)
      reads this
      ensures IsTopK(ByFrequency, Select(rows, SingleCharOf(zhuyin)), r, limit)
    {
      PhraseOrdersTotal();
      TopK(ByFrequency, Select(rows, SingleCharOf(zhuyin)), limit)
    }

    /** `get_associated_phrases`: phrases of two or more characters that
        start with `lastChar`, most frequent first. */
    function GetAssociatedPhrases(lastChar: string, limit: int := 10): (r: seq<PhraseRow>)
      reads this
      ensures IsTopK(ByFrequency, Select(rows, Continues(lastChar)), r, limit)
    {
      PhraseOrdersTotal();
      TopK(ByFrequency, Select(rows, Continues(lastChar)), limit)
    }

    /** `get_stats`: the row count, the one-character rows and the longer
        ones; every row is one or the other unless its phrase is empty. */
    function GetStats(): (r: Stats)
      reads this
      ensures r.total == |rows|
      ensures r.characters == |set i | 0 <= i < |rows| && rows[i].length == 1|
      ensures r.words == |set i | 0 <= i < |rows| && rows[i].length > 1|
      ensures r.characters + r.words <= r.total
      ensures (forall x :: x in rows ==> x.length >= 1) ==> r.characters + r.words == r.total
    {
      var chars := Select(rows, Characters);
      var words := Select(rows, Words);
      StatsPartition(rows);
      CountCharacters(rows);
      CountWords(rows);
      Stats(|rows|, |chars|, |words|)
    }

    /** `add_phrase`: `INSERT OR REPLACE`, so an existing row for the pair is
        replaced by a new row at the end, with the length of the phrase. */
    method AddPhrase(zhuyin: string, phrase: string, frequency: int := 100)
      requires Valid()
      modifies this
      ensures Valid()
      ensures rows == InsertOrReplace(PhraseKey, old(rows), PhraseRow(zhuyin, phrase, frequency, |phrase|))
    {
      var row := PhraseRow(zhuyin, phrase, frequency, |phrase|);
      rows := InsertOrReplace(PhraseKey, rows, row);
      forall i | 0 <= i < |rows| ensures rows[i].length == |rows[i].phrase| {
        assert rows[i] in rows;
      }
    }

    /** `update_frequency`: adds `increment` to the row for the pair, if
        there is one; no other row changes. */
    method UpdateFrequency(zhuyin: string, phrase: string, increment: int := 1)
      requires Valid()
      modifies this
      ensures Valid()
      ensures |rows| == |old(rows)|
      ensures forall i :: 0 <= i < |rows| ==>
                rows[i] == if PhraseKey(old(rows)[i]) == (zhuyin, phrase)
                           then old(rows)[i].(frequency := old(rows)[i].frequency + increment)
                           else old(rows)[i]
    {
      rows := UpdateWhere(PhraseKey, rows, (zhuyin, phrase), AddFrequency(increment));
      UpdateWhereLookup(PhraseKey, old(rows), (zhuyin, phrase), AddFrequency(increment), (zhuyin, phrase));
    }

    /** `INSERT OR IGNORE` of one row, as `add_custom_phrase` issues it. */
    method InsertIfAbsent(row: PhraseRow)
      requires Valid() && row.length == |row.phrase|
      modifies this
      ensures Valid()
      ensures rows == InsertOrIgnore(PhraseKey, old(rows), row)
    {
      rows := InsertOrIgnore(PhraseKey, rows, row);
    }

    /** `import_from_text` over the lines of a file. A frequency field that is
        not an integer raises before the commit, so the table is left as it
        was; otherwise every entry has been inserted unless its pair was
        already present. */
    method ImportFromText(lines: seq<string>) returns (ok: bool)
      requires Valid()
      modifies this
      ensures Valid()
      ensures ok <==> ImportAll(old(rows), lines).Some?
      ensures ok ==> rows == ImportAll(old(rows), lines).value
      ensures !ok ==> rows == old(rows)
    {
      var staged := rows;
      ghost var es := ParseLines(lines);
      var i := 0;
      while i < |lines|
        invariant 0 <= i <= |lines| && rows == old(rows)
        invariant ImportEntries(staged, es[i..]) == ImportAll(rows, lines)
      {
        ImportEntriesStep(staged, es[i..]);
        assert es[i..][0] == ParseLine(lines[i]);
        assert es[i..][1..] == es[i + 1..];
        match ParseLine(lines[i]) {
          case Skip =>
          case BadFrequency =>
            return false;
          case Entry(row) =>
            staged := InsertOrIgnore(PhraseKey, staged, row);
        }
        i := i + 1;
      }
      ImportKeepsRows(old(rows), lines);
      rows := staged;
      ok := true;
    }
  }

  /** The update `frequency = frequency + increment`. */
  function AddFrequency(increment: int): PhraseRow -> PhraseRow {
    (row: PhraseRow) => row.(frequency := row.frequency + increment)
  }

  /** `COUNT(*) ... WHERE length = 1` counts the rows `Select` keeps. */
  lemma CountCharacters(rows: seq<PhraseRow>)
    ensures |Select(rows, Characters)| == |set i | 0 <= i < |rows| && rows[i].length == 1|
  {
    FilterCount(row => Matches(Characters, row), rows);
    assert IndicesWhere(row => Matches(Characters, row), rows) == set i | 0 <= i < |rows| && rows[i].length == 1;
  }

  /** `COUNT(*) ... WHERE length > 1` counts the rows `Select` keeps. */
  lemma CountWords(rows: seq<PhraseRow>)
    ensures |Select(rows, Words)| == |set i | 0 <= i < |rows| && rows[i].length > 1|
  {
    FilterCount(row => Matches(Words, row), rows);
    assert IndicesWhere(row => Matches(Words, row), rows) == set i | 0 <= i < |rows| && rows[i].length > 1;
  }

  /** Every row is a character or a word, never both, unless its phrase is
      empty. */
  lemma StatsPartition(rows: seq<PhraseRow>)
    ensures |Select(rows, Characters)| + |Select(rows, Words)| <= |rows|
    ensures (forall x :: x in rows ==> x.length >= 1) ==>
              |Select(rows, Characters)| + |Select(rows, Words)| == |rows|
  {
    FilterDisjoint(row => Matches(Characters, row), row => Matches(Words, row), rows);
  }

  /** After `add_phrase` the pair finds the new row, and every other pair
      finds the row it found before. */
  lemma AddPhraseLookup(rows: seq<PhraseRow>, zhuyin: string, phrase: string, frequency: int, k: (string, string))
    ensures var r := InsertOrReplace(PhraseKey, rows, PhraseRow(zhuyin, phrase, frequency, |phrase|));
      && LookupBy(PhraseKey, r, (zhuyin, phrase)) == Some(PhraseRow(zhuyin, phrase, frequency, |phrase|))
      && (k != (zhuyin, phrase) ==> LookupBy(PhraseKey, r, k) == LookupBy(PhraseKey, rows, k))
  {
    InsertOrReplaceLookup(PhraseKey, rows, PhraseRow(zhuyin, phrase, frequency, |phrase|), k);
  }

  /** After `update_frequency` the pair's row, if any, has gained
      `increment`; a missing pair stays missing; other pairs are unchanged. */
  lemma UpdateFrequencyLookup(rows: seq<PhraseRow>, zhuyin: string, phrase: string, increment: int, k: (string, string))
    ensures LookupBy(PhraseKey, UpdateWhere(PhraseKey, rows, (zhuyin, phrase), AddFrequency(increment)), k)
            == match LookupBy(PhraseKey, rows, k)
               case None => None
               case Some(x) => Some(if k == (zhuyin, phrase) then AddFrequency(increment)(x) else x)
  {
    AddFrequencyKeepsKey(increment);
    UpdateWhereLookup(PhraseKey, rows, (zhuyin, phrase), AddFrequency(increment), k);
  }

  lemma AddFrequencyKeepsKey(increment: int)
    ensures forall x :: PhraseKey(AddFrequency(increment)(x)) == PhraseKey(x)
  {
  }

  /** A row of `user_history`. `lastUsed` is the caller's clock reading at
      the latest selection (`CURRENT_TIMESTAMP`). */
  datatype HistoryRow = HistoryRow(zhuyin: string, phrase: string, useCount: int, lastUsed: int)

  /** A row of `user_custom`; `createdAt` is the clock reading at insertion. */
  datatype CustomRow = CustomRow(zhuyin: string, phrase: string, createdAt: int)

  function HistoryKey(row: HistoryRow): (string, string) {
    (row.zhuyin, row.phrase)
  }

  function CustomKey(row: CustomRow): (string, string) {
    (row.zhuyin, row.phrase)
  }

  /** `ORDER BY use_count DESC, last_used DESC`. */
  predicate MoreUsed(a: HistoryRow, b: HistoryRow) {
    a.useCount > b.useCount || (a.useCount == b.useCount && a.lastUsed >= b.lastUsed)
  }

  lemma MoreUsedTotal()
    ensures TotalPreorder(MoreUsed)
  {
  }

  /** `WHERE zhuyin = ?` on `user_history`. */
  function HistoryFor(history: seq<HistoryRow>, zhuyin: string): (r: seq<HistoryRow>)
    ensures forall x :: x in r <==> x in history && x.zhuyin == zhuyin
    ensures forall x: HistoryRow :: x.zhuyin == zhuyin ==> multiset(r)[x] == multiset(history)[x]
  {
    Filter((h: HistoryRow) => h.zhuyin == zhuyin, history)
  }

  /** The conflict update `use_count = use_count + 1, last_used = now`. */
  function Reselected(now: int): HistoryRow -> HistoryRow {
    (h: HistoryRow) => h.(useCount := h.useCount + 1, lastUsed := now)
  }

  /** The user's own database file: its `phrases` table (the same table as
      the dictionary's, reached here through `phrases`), the selection
      history and the custom phrases. */
  class UserPhraseDatabase {
    const phrases: PhraseDatabase
    var history: seq<HistoryRow>
    var custom: seq<CustomRow>

    ghost predicate Valid()
      reads this, phrases
    {
      && phrases.Valid()
      && UniqueBy(HistoryKey, history)
      && UniqueBy(CustomKey, custom)
    }

    /** Opens a user database whose tables already hold the given rows. */
    constructor (initialPhrases: seq<PhraseRow>, initialHistory: seq<HistoryRow>, initialCustom: seq<CustomRow>)
      requires UniqueBy(PhraseKey, initialPhrases) && LengthsStored(initialPhrases)
      requires UniqueBy(HistoryKey, initialHistory) && UniqueBy(CustomKey, initialCustom)
      ensures Valid() && fresh(phrases)
      ensures phrases.rows == initialPhrases && history == initialHistory && custom == initialCustom
    {
      phrases := new PhraseDatabase(initialPhrases);
      history := initialHistory;
      custom := initialCustom;
    }

    /** `record_selection`: a first selection of the pair adds a row with
        count 1; a later one raises the count by 1 and stamps the time, in
        place. */
    method RecordSelection(zhuyin: string, phrase: string, now: int)
      requires Valid()
      modifies this
      ensures Valid()
      ensures history == Upsert(HistoryKey, old(history), HistoryRow(zhuyin, phrase, 1, now), Reselected(now))
      ensures custom == old(custom)
    {
      var f := Reselected(now);
      assert forall x :: HistoryKey(f(x)) == HistoryKey(x);
      UpsertLookup(HistoryKey, history, HistoryRow(zhuyin, phrase, 1, now), f, (zhuyin, phrase));
      history := Upsert(HistoryKey, history, HistoryRow(zhuyin, phrase, 1, now), f);
    }

    /** `get_user_preference`: this zhuyin's history rows, most used first
        and most recent first among equals, at most `limit` of them. */
    function GetUserPreference(zhuyin: string, limit: int := 5): (r: seq<HistoryRow>)
      reads this
      ensures IsTopK(MoreUsed, HistoryFor(history, zhuyin), r, limit)
    {
      MoreUsedTotal();
      TopK(MoreUsed, HistoryFor(history, zhuyin), limit)
    }

    /** `add_custom_phrase`: `INSERT OR IGNORE` into `user_custom`, and into
        this file's `phrases` with frequency 1000. */
    method AddCustomPhrase(zhuyin: string, phrase: string, now: int)
      requires Valid()
      modifies this, phrases
      ensures Valid()
      ensures custom == InsertOrIgnore(CustomKey, old(custom), CustomRow(zhuyin, phrase, now))
      ensures phrases.rows == InsertOrIgnore(PhraseKey, old(phrases.rows), PhraseRow(zhuyin, phrase, 1000, |phrase|))
      ensures history == old(history)
    {
      custom := InsertOrIgnore(CustomKey, custom, CustomRow(zhuyin, phrase, now));
      phrases.InsertIfAbsent(PhraseRow(zhuyin, phrase, 1000, |phrase|));
    }

    /** `clear_history`: `DELETE FROM user_history`; nothing else changes. */
    method ClearHistory()
      requires Valid()
      modifies this
      ensures Valid()
      ensures history == [] && custom == old(custom)
    {
      history := [];
    }
  }

  /** After `record_selection` the pair's row has count 1 when it is new and
      one more than before otherwise, stamped `now`; every other pair's row
      is as it was. */
  lemma RecordSelectionLookup(history: seq<HistoryRow>, zhuyin: string, phrase: string, now: int, k: (string, string))
    ensures LookupBy(HistoryKey, Upsert(HistoryKey, history, HistoryRow(zhuyin, phrase, 1, now), Reselected(now)), (zhuyin, phrase))
            == match LookupBy(HistoryKey, history, (zhuyin, phrase))
               case None => Some(HistoryRow(zhuyin, phrase, 1, now))
               case Some(x) => Some(HistoryRow(zhuyin, phrase, x.useCount + 1, now))
    ensures k != (zhuyin, phrase) ==>
              LookupBy(HistoryKey, Upsert(HistoryKey, history, HistoryRow(zhuyin, phrase, 1, now), Reselected(now)), k)
              == LookupBy(HistoryKey, history, k)
  {
    RecordSelectionFinds(history, zhuyin, phrase, now);
    RecordSelectionOthers(history, zhuyin, phrase, now, k);
    var after := LookupBy(HistoryKey, Upsert(HistoryKey, history, HistoryRow(zhuyin, phrase, 1, now), Reselected(now)), (zhuyin, phrase));
    match LookupBy(HistoryKey, history, (zhuyin, phrase))
    case None =>
    case Some(x) =>
      assert after == Some(Reselected(now)(x));
      ReselectedRow(now, x, zhuyin, phrase);
  }

  lemma RecordSelectionOthers(history: seq<HistoryRow>, zhuyin: string, phrase: string, now: int, k: (string, string))
    ensures k != (zhuyin, phrase) ==>
              LookupBy(HistoryKey, Upsert(HistoryKey, history, HistoryRow(zhuyin, phrase, 1, now), Reselected(now)), k)
              == LookupBy(HistoryKey, history, k)
  {
    ReselectedKeepsKey(now);
    UpsertLookup(HistoryKey, history, HistoryRow(zhuyin, phrase, 1, now), Reselected(now), k);
  }

  lemma RecordSelectionFinds(history: seq<HistoryRow>, zhuyin: string, phrase: string, now: int)
    ensures LookupBy(HistoryKey, Upsert(HistoryKey, history, HistoryRow(zhuyin, phrase, 1, now), Reselected(now)), (zhuyin, phrase))
            == match LookupBy(HistoryKey, history, (zhuyin, phrase))
               case None => Some(HistoryRow(zhuyin, phrase, 1, now))
               case Some(x) => Some(Reselected(now)(x))
  {
    ReselectedKeepsKey(now);
    UpsertLookup(HistoryKey, history, HistoryRow(zhuyin, phrase, 1, now), Reselected(now), (zhuyin, phrase));
  }

  lemma ReselectedKeepsKey(now: int)
    ensures forall x :: HistoryKey(Reselected(now)(x)) == HistoryKey(x)
  {
  }

  lemma ReselectedRow(now: int, x: HistoryRow, zhuyin: string, phrase: string)
    requires HistoryKey(x) == (zhuyin, phrase)
    ensures Reselected(now)(x) == HistoryRow(zhuyin, phrase, x.useCount + 1, now)
  {
  }

  /** `add_custom_phrase` is idempotent, and a pair already in `phrases`
      keeps its row, frequency included. */
  lemma AddCustomPhraseOnce(custom: seq<CustomRow>, rows: seq<PhraseRow>, zhuyin: string, phrase: string, now: int, later: int)
    ensures var c1 := InsertOrIgnore(CustomKey, custom, CustomRow(zhuyin, phrase, now));
      InsertOrIgnore(CustomKey, c1, CustomRow(zhuyin, phrase, later)) == c1
    ensures var r1 := InsertOrIgnore(PhraseKey, rows, PhraseRow(zhuyin, phrase, 1000, |phrase|));
      InsertOrIgnore(PhraseKey, r1, PhraseRow(zhuyin, phrase, 1000, |phrase|)) == r1
    ensures LookupBy(PhraseKey, rows, (zhuyin, phrase)).Some? ==>
      InsertOrIgnore(PhraseKey, rows, PhraseRow(zhuyin, phrase, 1000, |phrase|)) == rows
  {
    var c := CustomRow(zhuyin, phrase, now);
    InsertOrIgnoreLookup(CustomKey, custom, c, CustomKey(c));
    InsertOrIgnoreLookup(PhraseKey, rows, PhraseRow(zhuyin, phrase, 1000, |phrase|), (zhuyin, phrase));
  }
}
