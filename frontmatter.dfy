/** The front-matter renderer (generateMarkdownContent): a "+++"-delimited
    TOML-style header built from a Book, line by line, in a fixed order. The
    document is modelled as a sequence of lines, each of which has one text;
    the lemmas give the exact text and the line structure the source
    promises. */
module Frontmatter {
  import opened Books

  /** One line of the header, before it is turned into text. */
  datatype Line =
    | Delimiter
    | TitleEntry(title: string)
    | DateEntry(date: string)
    | Comment(text: string)
    | TaxonomiesTable
    | Taxonomy(key: Column, value: string)
    | Blank

  /** The text of one line, newline included. Values are pasted in verbatim,
      without escaping. */
  function Render(l: Line): string {
    match l
    case Delimiter => "+++\n"
    case TitleEntry(t) => "title = \"" + t + "\"\n"
    case DateEntry(d) => "date = " + d + "\n"
    case Comment(t) => "# " + t + "\n"
    case TaxonomiesTable => "[taxonomies]\n"
    case Taxonomy(k, v) => "  " + Name(k) + " = [\"" + v + "\"]\n"
    case Blank => "\n"
  }

  /** The text of a sequence of lines, in order. */
  function Text(ls: seq<Line>): string {
    if ls == [] then "" else Render(ls[0]) + Text(ls[1..])
  }

  /** The opening delimiter, then the title and the date. */
  function OpeningLines(b: Book): seq<Line> {
    [Delimiter, TitleEntry(b.Title), DateEntry(b.Date)]
  }

  /** The two guidance comments and the taxonomies table header. */
  const GuideLines: seq<Line> :=
    [Comment("if you don't use a taxonomy, delete it"), Comment("empty fields not allowed"), TaxonomiesTable]

  /** The three taxonomy entries written for every book. */
  function FixedEntries(b: Book): seq<Line> {
    [Taxonomy(ReadState, b.ReadState), Taxonomy(AuthorName, b.AuthorName), Taxonomy(PubYear, b.PubYear)]
  }

  /** The rating entry, written only when the rating is shown. */
  function RatingLines(b: Book): seq<Line> {
    if ShowsRating(b) then [Taxonomy(Rating, b.Rating)] else []
  }

  /** The recommender entry, written only when there is a recommender. */
  function RecommenderLines(b: Book): seq<Line> {
    if ShowsRecommender(b) then [Taxonomy(Recommender, b.Recommender)] else []
  }

  /** The closing delimiter, then the empty line that separates the body. */
  const ClosingLines: seq<Line> := [Delimiter, Blank]

  /** The lines the renderer writes for `b`, in order. */
  function Lines(b: Book): seq<Line> {
    OpeningLines(b) + (GuideLines + (FixedEntries(b) + (RatingLines(b) + (RecommenderLines(b) + ClosingLines))))
  }

  /** The whole rendered document. */
  function Content(b: Book): string {
    Text(Lines(b))
  }

  /** The key of a line, if it is a taxonomy entry. */
  function KeyOf(l: Line): seq<Column> {
    if l.Taxonomy? then [l.key] else []
  }

  /** The keys of the taxonomy entries among `ls`, in order. */
  function TaxonomyKeys(ls: seq<Line>): seq<Column> {
    if ls == [] then [] else KeyOf(ls[0]) + TaxonomyKeys(ls[1..])
  }

  lemma Associative<T>(a: seq<T>, b: seq<T>, c: seq<T>)
    ensures a + (b + c) == (a + b) + c
  {
  }

  /** Text of a concatenation is the concatenation of the texts. */
  lemma {:induction false} TextAppend(xs: seq<Line>, ys: seq<Line>)
    ensures Text(xs + ys) == Text(xs) + Text(ys)
  {
    if xs == [] {
      assert xs + ys == ys;
    } else {
      assert (xs + ys)[0] == xs[0];
      assert (xs + ys)[1..] == xs[1..] + ys;
      TextAppend(xs[1..], ys);
      Associative(Render(xs[0]), Text(xs[1..]), Text(ys));
    }
  }

  /** The keys of a concatenation are the concatenation of the keys. */
  lemma {:induction false} KeysAppend(xs: seq<Line>, ys: seq<Line>)
    ensures TaxonomyKeys(xs + ys) == TaxonomyKeys(xs) + TaxonomyKeys(ys)
  {
    if xs == [] {
      assert xs + ys == ys;
    } else {
      assert (xs + ys)[0] == xs[0];
      assert (xs + ys)[1..] == xs[1..] + ys;
      KeysAppend(xs[1..], ys);
      Associative(KeyOf(xs[0]), TaxonomyKeys(xs[1..]), TaxonomyKeys(ys));
    }
  }

  lemma TextOfOne(a: Line)
    ensures Text([a]) == Render(a)
  {
    assert [a][1..] == [];
  }

  lemma TextOfTwo(a: Line, b: Line)
    ensures Text([a, b]) == Render(a) + Render(b)
  {
    assert [a, b][1..] == [b];
    TextOfOne(b);
  }

  lemma TextOfThree(a: Line, b: Line, c: Line)
    ensures Text([a, b, c]) == Render(a) + Render(b) + Render(c)
  {
    assert [a, b, c][1..] == [b, c];
    TextOfTwo(b, c);
  }

  lemma KeysOfOne(a: Line)
    ensures TaxonomyKeys([a]) == KeyOf(a)
  {
    assert [a][1..] == [];
  }

  lemma KeysOfTwo(a: Line, b: Line)
    ensures TaxonomyKeys([a, b]) == KeyOf(a) + KeyOf(b)
  {
    assert [a, b][1..] == [b];
    KeysOfOne(b);
  }

  lemma KeysOfThree(a: Line, b: Line, c: Line)
    ensures TaxonomyKeys([a, b, c]) == KeyOf(a) + KeyOf(b) + KeyOf(c)
  {
    assert [a, b, c][1..] == [b, c];
    KeysOfTwo(b, c);
  }

  /** Text of each part of the document. */
  lemma OpeningText(b: Book)
    ensures Text(OpeningLines(b)) == "+++\n" + ("title = \"" + b.Title + "\"\n") + ("date = " + b.Date + "\n")
  {
    TextOfThree(Delimiter, TitleEntry(b.Title), DateEntry(b.Date));
  }

  lemma GuideText()
    ensures Text(GuideLines) ==
      ("# " + "if you don't use a taxonomy, delete it" + "\n")
      + ("# " + "empty fields not allowed" + "\n")
      + "[taxonomies]\n"
  {
    TextOfThree(Comment("if you don't use a taxonomy, delete it"), Comment("empty fields not allowed"), TaxonomiesTable);
  }

  lemma FixedEntriesText(b: Book)
    ensures Text(FixedEntries(b)) ==
      ("  " + "readstate" + " = [\"" + b.ReadState + "\"]\n")
      + ("  " + "authorname" + " = [\"" + b.AuthorName + "\"]\n")
      + ("  " + "pubyear" + " = [\"" + b.PubYear + "\"]\n")
  {
    TextOfThree(Taxonomy(ReadState, b.ReadState), Taxonomy(AuthorName, b.AuthorName), Taxonomy(PubYear, b.PubYear));
  }

  lemma RatingText(b: Book)
    ensures Text(RatingLines(b)) == if ShowsRating(b) then "  " + "rating" + " = [\"" + b.Rating + "\"]\n" else ""
  {
    if ShowsRating(b) { TextOfOne(Taxonomy(Rating, b.Rating)); }
  }

  lemma RecommenderText(b: Book)
    ensures Text(RecommenderLines(b)) ==
      if ShowsRecommender(b) then "  " + "recommender" + " = [\"" + b.Recommender + "\"]\n" else ""
  {
    if ShowsRecommender(b) { TextOfOne(Taxonomy(Recommender, b.Recommender)); }
  }

  lemma ClosingText()
    ensures Text(ClosingLines) == "+++\n\n"
  {
    TextOfTwo(Delimiter, Blank);
  }

  /** The document is the concatenation of the texts of its parts. */
  lemma ContentParts(b: Book)
    ensures Content(b) ==
      Text(OpeningLines(b)) + (Text(GuideLines) + (Text(FixedEntries(b))
      + (Text(RatingLines(b)) + (Text(RecommenderLines(b)) + Text(ClosingLines)))))
  {
    var r, m := RatingLines(b), RecommenderLines(b);
    TextAppend(m, ClosingLines);
    TextAppend(r, m + ClosingLines);
    TextAppend(FixedEntries(b), r + (m + ClosingLines));
    TextAppend(GuideLines, FixedEntries(b) + (r + (m + ClosingLines)));
    TextAppend(OpeningLines(b), GuideLines + (FixedEntries(b) + (r + (m + ClosingLines))));
  }

  /** The exact document text: the opening delimiter, the quoted title, the
      unquoted date, the two comments, the table header, the three fixed
      entries, the rating line only when the rating is shown, the
      recommender line only when there is a recommender, the closing
      delimiter and an empty line. */
  lemma ContentText(b: Book)
    ensures Content(b) ==
      ("+++\n" + ("title = \"" + b.Title + "\"\n") + ("date = " + b.Date + "\n"))
      + ((("# " + "if you don't use a taxonomy, delete it" + "\n")
          + ("# " + "empty fields not allowed" + "\n")
          + "[taxonomies]\n")
      + ((("  " + "readstate" + " = [\"" + b.ReadState + "\"]\n")
          + ("  " + "authorname" + " = [\"" + b.AuthorName + "\"]\n")
          + ("  " + "pubyear" + " = [\"" + b.PubYear + "\"]\n"))
      + ((if ShowsRating(b) then "  " + "rating" + " = [\"" + b.Rating + "\"]\n" else "")
      + ((if ShowsRecommender(b) then "  " + "recommender" + " = [\"" + b.Recommender + "\"]\n" else "")
      + "+++\n\n"))))
  {
    ContentParts(b);
    OpeningText(b);
    GuideText();
    FixedEntriesText(b);
    RatingText(b);
    RecommenderText(b);
    ClosingText();
  }

  /** The document opens with the delimiter, the quoted title and the
      unquoted date. */
  lemma ContentStart(b: Book)
    ensures var head := "+++\n" + ("title = \"" + b.Title + "\"\n") + ("date = " + b.Date + "\n");
      |Content(b)| >= |head| && Content(b)[..|head|] == head
  {
    var rest := GuideLines + (FixedEntries(b) + (RatingLines(b) + (RecommenderLines(b) + ClosingLines)));
    TextAppend(OpeningLines(b), rest);
    OpeningText(b);
  }

  /** The lines end with the closing lines. */
  lemma LinesEnd(b: Book)
    ensures |Lines(b)| >= 2 && Lines(b) == Lines(b)[..|Lines(b)| - 2] + ClosingLines
  {
    var n := |Lines(b)|;
    assert Lines(b)[n - 2] == Delimiter && Lines(b)[n - 1] == Blank;
  }

  /** The document closes with the delimiter and one empty line. */
  lemma ContentEnd(b: Book)
    ensures |Content(b)| >= 5 && Content(b)[|Content(b)| - 5..] == "+++\n\n"
  {
    LinesEnd(b);
    var front := Lines(b)[..|Lines(b)| - 2];
    TextAppend(front, ClosingLines);
    ClosingText();
    var t := Text(front);
    assert Content(b) == t + "+++\n\n";
    assert Content(b)[|t|..] == "+++\n\n";
  }

  lemma NoKeys(b: Book)
    ensures TaxonomyKeys(OpeningLines(b)) == [] && TaxonomyKeys(GuideLines) == [] && TaxonomyKeys(ClosingLines) == []
  {
    KeysOfThree(Delimiter, TitleEntry(b.Title), DateEntry(b.Date));
    KeysOfThree(Comment("if you don't use a taxonomy, delete it"), Comment("empty fields not allowed"), TaxonomiesTable);
    KeysOfTwo(Delimiter, Blank);
  }

  lemma FixedKeys(b: Book)
    ensures TaxonomyKeys(FixedEntries(b)) == [ReadState, AuthorName, PubYear]
  {
    KeysOfThree(Taxonomy(ReadState, b.ReadState), Taxonomy(AuthorName, b.AuthorName), Taxonomy(PubYear, b.PubYear));
  }

  lemma OptionalKeys(b: Book)
    ensures TaxonomyKeys(RatingLines(b)) == Optional(ShowsRating(b), Rating)
    ensures TaxonomyKeys(RecommenderLines(b)) == Optional(ShowsRecommender(b), Recommender)
  {
    if ShowsRating(b) { KeysOfOne(Taxonomy(Rating, b.Rating)); }
    if ShowsRecommender(b) { KeysOfOne(Taxonomy(Recommender, b.Recommender)); }
  }

  /** The taxonomy entries the renderer writes come in the fixed order
      readstate, authorname, pubyear, then rating when it is shown, then
      recommender when it is shown. */
  lemma KeyOrder(b: Book)
    ensures TaxonomyKeys(Lines(b)) ==
      [ReadState, AuthorName, PubYear]
      + (Optional(ShowsRating(b), Rating) + Optional(ShowsRecommender(b), Recommender))
  {
    var o, g, f, r, m := OpeningLines(b), GuideLines, FixedEntries(b), RatingLines(b), RecommenderLines(b);
    var kr, km := TaxonomyKeys(r), TaxonomyKeys(m);
    NoKeys(b);
    FixedKeys(b);
    OptionalKeys(b);
    KeysAppend(m, ClosingLines);
    assert km + [] == km;
    assert TaxonomyKeys(m + ClosingLines) == km;
    KeysAppend(r, m + ClosingLines);
    assert TaxonomyKeys(r + (m + ClosingLines)) == kr + km;
    KeysAppend(f, r + (m + ClosingLines));
    var tail := [ReadState, AuthorName, PubYear] + (kr + km);
    assert TaxonomyKeys(f + (r + (m + ClosingLines))) == tail;
    KeysAppend(g, f + (r + (m + ClosingLines)));
    assert [] + tail == tail;
    KeysAppend(o, g + (f + (r + (m + ClosingLines))));
  }

  /** Each fixed entry appears exactly once; the rating entry appears once
      exactly when the rating is neither empty nor "NR", and never otherwise;
      the recommender entry appears once exactly when there is a
      recommender; the title is never a taxonomy entry. These are counts of
      the entries the renderer writes, not of matching text: values are
      pasted in unescaped, so a field holding a newline can put text that
      looks like another entry into the document. */
  lemma EntryCounts(b: Book)
    ensures var keys := multiset(TaxonomyKeys(Lines(b)));
      && keys[ReadState] == 1 && keys[AuthorName] == 1 && keys[PubYear] == 1
      && keys[Rating] == (if ShowsRating(b) then 1 else 0)
      && keys[Recommender] == (if ShowsRecommender(b) then 1 else 0)
      && keys[Title] == 0
  {
    KeyOrder(b);
    KeyCounts(TaxonomyKeys(Lines(b)), ShowsRating(b), ShowsRecommender(b));
  }

  /** `[c]` when `present`, nothing otherwise. */
  function Optional(present: bool, c: Column): (r: seq<Column>)
    ensures forall d :: multiset(r)[d] == if present && d == c then 1 else 0
  {
    if present then [c] else []
  }

  /** How often each column occurs among the fixed keys. */
  lemma FixedCounts()
    ensures var ms := multiset([ReadState, AuthorName, PubYear]);
      && ms[ReadState] == 1 && ms[AuthorName] == 1 && ms[PubYear] == 1
      && ms[Rating] == 0 && ms[Recommender] == 0 && ms[Title] == 0
  {
  }

  lemma CountsOfJoin(f: seq<Column>, r: seq<Column>, m: seq<Column>)
    ensures forall c :: multiset(f + (r + m))[c] == multiset(f)[c] + multiset(r)[c] + multiset(m)[c]
  {
  }

  /** The counts of each column in a key sequence of the rendered shape. */
  lemma KeyCounts(keys: seq<Column>, rating: bool, recommender: bool)
    requires keys == [ReadState, AuthorName, PubYear] + (Optional(rating, Rating) + Optional(recommender, Recommender))
    ensures var ms := multiset(keys);
      && ms[ReadState] == 1 && ms[AuthorName] == 1 && ms[PubYear] == 1
      && ms[Rating] == (if rating then 1 else 0)
      && ms[Recommender] == (if recommender then 1 else 0)
      && ms[Title] == 0
  {
    FixedCounts();
    CountsOfJoin([ReadState, AuthorName, PubYear], Optional(rating, Rating), Optional(recommender, Recommender));
  }

  /** Every taxonomy entry carries the field its key names, verbatim. */
  lemma EntryValues(b: Book)
    ensures forall l :: l in Lines(b) && l.Taxonomy? ==> l.value == Field(b, l.key)
  {
    forall l | l in Lines(b) && l.Taxonomy?
      ensures l.value == Field(b, l.key)
    {
      assert l in FixedEntries(b) || l in RatingLines(b) || l in RecommenderLines(b);
    }
  }

  /** The title and date lines follow the opening delimiter, in that order,
      and no other line is a title or date line. */
  lemma TitleAndDateLines(b: Book)
    ensures Lines(b)[0] == Delimiter
    ensures Lines(b)[1] == TitleEntry(b.Title) && Lines(b)[2] == DateEntry(b.Date)
    ensures forall i :: 0 <= i < |Lines(b)| && i != 1 ==> !Lines(b)[i].TitleEntry?
    ensures forall i :: 0 <= i < |Lines(b)| && i != 2 ==> !Lines(b)[i].DateEntry?
  {
  }

  /** When shown, the rating line comes straight after the pubyear line. */
  lemma RatingLine(b: Book)
    requires ShowsRating(b)
    ensures |Lines(b)| > 10 && Lines(b)[8] == Taxonomy(PubYear, b.PubYear)
    ensures Lines(b)[9] == Taxonomy(Rating, b.Rating)
  {
  }

  /** When shown, the recommender line is the last line before the closing
      delimiter. */
  lemma RecommenderLine(b: Book)
    requires ShowsRecommender(b)
    ensures var n := |Lines(b)|;
      n > 10 && Lines(b)[n - 3] == Taxonomy(Recommender, b.Recommender)
      && Lines(b)[n - 2] == Delimiter && Lines(b)[n - 1] == Blank
  {
  }

  /** A rating that is not shown has no effect on the document. */
  lemma HiddenRatingIgnored(b: Book, rating: string)
    requires !ShowsRating(b) && rating in {"", NotRated}
    ensures Content(b) == Content(b.(Rating := rating))
  {
  }

  /** The worked example: a "NR" rating and an empty recommender leave only
      the lines written for every book. */
  lemma DuneExample()
    ensures Lines(Book("Dune", "read", "Frank Herbert", "1965", "", "NR", "2024-01-15")) ==
      [ Delimiter,
        TitleEntry("Dune"),
        DateEntry("2024-01-15"),
        Comment("if you don't use a taxonomy, delete it"),
        Comment("empty fields not allowed"),
        TaxonomiesTable,
        Taxonomy(ReadState, "read"),
        Taxonomy(AuthorName, "Frank Herbert"),
        Taxonomy(PubYear, "1965"),
        Delimiter,
        Blank ]
  {
  }
}
