/** The driver loop of the importer (main): the header row becomes a map from
    lower-cased column name to position, then every later row becomes a Book
    stamped with one run-wide date, rendered, and given a file name. Reading
    the table, the clock and the file writes are outside the model: the parsed
    table and the date are parameters, and the run's result is the sequence of
    documents it would write, in order. */
module Importer {
  import opened Books
  import opened FileNames
  import opened Frontmatter

  /** Lower-casing of one character, for ASCII letters only. */
  function LowerChar(c: char): char {
    if 'A' <= c <= 'Z' then (c as int + 32) as char else c
  }

  /** Lower-casing of a header cell. */
  function Lower(s: string): string {
    seq(|s|, i requires 0 <= i < |s| => LowerChar(s[i]))
  }

  /** The header map after the loop has seen every cell of `headers`, one
      position at a time, later positions overwriting earlier ones. */
  function HeaderIndex(headers: seq<string>): map<string, nat>
    decreases |headers|
  {
    if headers == [] then map[]
    else HeaderIndex(headers[..|headers| - 1])[Lower(headers[|headers| - 1]) := |headers| - 1]
  }

  /** What the header map means: every lower-cased header is a key; every key
      maps to a position holding that header; and no header at a later
      position lower-cases to the same key (the last duplicate wins). */
  ghost predicate LastWins(headers: seq<string>, index: map<string, nat>) {
    && (forall j :: 0 <= j < |headers| ==> Lower(headers[j]) in index && j <= index[Lower(headers[j])])
    && (forall k :: k in index ==> index[k] < |headers| && Lower(headers[index[k]]) == k)
  }

  lemma {:induction false} HeaderIndexLastWins(headers: seq<string>)
    ensures LastWins(headers, HeaderIndex(headers))
    decreases |headers|
  {
    if headers != [] {
      var n := |headers| - 1;
      var init := headers[..n];
      HeaderIndexLastWins(init);
      assert forall j :: 0 <= j < n ==> init[j] == headers[j];
    }
  }

  /** The meaning determines the map: there is exactly one map with it. */
  lemma LastWinsUnique(headers: seq<string>, m1: map<string, nat>, m2: map<string, nat>)
    requires LastWins(headers, m1) && LastWins(headers, m2)
    ensures m1 == m2
  {
    forall k | k in m1 ensures k in m2 && m1[k] == m2[k] {
      var i := m1[k];
      assert Lower(headers[i]) == k;
      var j := m2[k];
      assert Lower(headers[j]) == k;
    }
    forall k | k in m2 ensures k in m1 {
      assert Lower(headers[m2[k]]) == k;
    }
  }

  /** The header loop: one map update per header cell, in order. */
  method BuildHeaderIndex(headers: seq<string>) returns (index: map<string, nat>)
    ensures index == HeaderIndex(headers)
    ensures LastWins(headers, index)
  {
    index := map[];
    for i := 0 to |headers|
      invariant index == HeaderIndex(headers[..i])
    {
      assert headers[..i + 1][..i] == headers[..i];
      index := index[Lower(headers[i]) := i];
    }
    assert headers[..|headers|] == headers;
    HeaderIndexLastWins(headers);
  }

  /** The position a column is read from. A name missing from the map reads
      as position 0, the zero value of a map lookup, not as an error. */
  function Position(index: map<string, nat>, c: Column): nat {
    if Name(c) in index then index[Name(c)] else 0
  }

  /** Where a column is read from, in terms of the header row: the last
      position whose header lower-cases to its name, or position 0 when there
      is none. */
  lemma PositionOfHeader(headers: seq<string>, c: Column)
    ensures var p := Position(HeaderIndex(headers), c);
      if exists j :: 0 <= j < |headers| && Lower(headers[j]) == Name(c) then
        p < |headers| && Lower(headers[p]) == Name(c)
        && forall j :: p < j < |headers| ==> Lower(headers[j]) != Name(c)
      else
        p == 0
  {
    HeaderIndexLastWins(headers);
  }

  /** Whether every column lookup lands inside `row`. */
  predicate InRange(row: seq<string>, index: map<string, nat>) {
    forall c: Column :: Position(index, c) < |row|
  }

  /** The record built from one data row, or None where a lookup would fall
      outside the row (an index-out-of-range panic in the source). */
  function MapRow(row: seq<string>, index: map<string, nat>, date: string): (r: Option<Book>)
    ensures r.Some? <==> InRange(row, index)
    ensures r.Some? ==> r.value.Date == date
    ensures r.Some? ==> forall c :: Field(r.value, c) == row[Position(index, c)]
  {
    if InRange(row, index) then
      Some(Book(
        Title := row[Position(index, Title)],
        ReadState := row[Position(index, ReadState)],
        AuthorName := row[Position(index, AuthorName)],
        PubYear := row[Position(index, PubYear)],
        Recommender := row[Position(index, Recommender)],
        Rating := row[Position(index, Rating)],
        Date := date))
    else None
  }

  /** A column the header row does not name is read from the row's first
      cell. */
  lemma MissingColumnReadsFirstCell(headers: seq<string>, row: seq<string>, date: string, c: Column)
    requires forall j :: 0 <= j < |headers| ==> Lower(headers[j]) != Name(c)
    requires MapRow(row, HeaderIndex(headers), date).Some?
    ensures |row| > 0 && Field(MapRow(row, HeaderIndex(headers), date).value, c) == row[0]
  {
    PositionOfHeader(headers, c);
  }

  /** One document the run writes: the record, its file name and its text. */
  datatype Document = Document(book: Book, fileName: string, content: string)

  /** The end of a run: too few rows to start; every data row handled; or a
      lookup that fell outside the row at position `row` of the table, which
      aborts the run after the documents before it. */
  datatype Outcome =
    | NotEnoughData
    | Finished(docs: seq<Document>)
    | Panicked(docs: seq<Document>, row: nat)

  /** The document written for one record. */
  function Emit(b: Book): Document {
    Document(b, FileName(b.Title), Content(b))
  }

  /** `d` is the document the run writes for `row`. */
  predicate Converted(row: seq<string>, index: map<string, nat>, date: string, d: Document) {
    MapRow(row, index, date) == Some(d.book) && d == Emit(d.book)
  }

  /** The table as the CSV reader hands it over by default: a non-empty
      header, and every row with as many cells as the header. */
  predicate Rectangular(records: seq<seq<string>>) {
    |records| > 0 && |records[0]| > 0
    && forall i :: 0 <= i < |records| ==> |records[i]| == |records[0]|
  }

  /** In a rectangular table every lookup lands inside every row. */
  lemma RectangularInRange(records: seq<seq<string>>, i: nat)
    requires Rectangular(records) && i < |records|
    ensures InRange(records[i], HeaderIndex(records[0]))
  {
    forall c: Column
      ensures Position(HeaderIndex(records[0]), c) < |records[i]|
    {
      PositionOfHeader(records[0], c);
    }
  }

  /** The main loop over the parsed table. */
  method Run(records: seq<seq<string>>, date: string) returns (outcome: Outcome)
    ensures outcome.NotEnoughData? <==> |records| < 2
    ensures outcome.Finished? ==>
      && |outcome.docs| == |records| - 1
      && forall k :: 0 <= k < |outcome.docs| ==>
           Converted(records[k + 1], HeaderIndex(records[0]), date, outcome.docs[k])
    ensures outcome.Panicked? ==>
      && 1 <= outcome.row < |records|
      && |outcome.docs| == outcome.row - 1
      && MapRow(records[outcome.row], HeaderIndex(records[0]), date) == None
      && forall k :: 0 <= k < |outcome.docs| ==>
           Converted(records[k + 1], HeaderIndex(records[0]), date, outcome.docs[k])
    ensures !outcome.NotEnoughData? ==> forall d :: d in outcome.docs ==> d.book.Date == date
    ensures |records| >= 2 && Rectangular(records) ==> outcome.Finished?
  {
    if |records| < 2 {
      return NotEnoughData;
    }
    var headers := records[0];
    var index := BuildHeaderIndex(headers);
    var docs: seq<Document> := [];
    for i := 1 to |records|
      invariant |docs| == i - 1
      invariant forall k :: 0 <= k < |docs| ==> Converted(records[k + 1], index, date, docs[k])
      invariant forall d :: d in docs ==> d.book.Date == date
    {
      var book := MapRow(records[i], index, date);
      if book.None? {
        if Rectangular(records) {
          RectangularInRange(records, i);
        }
        return Panicked(docs, i);
      }
      var d := Emit(book.value);
      assert Converted(records[i], index, date, d);
      docs := docs + [d];
    }
    return Finished(docs);
  }
}
