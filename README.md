# Book importer: a Dafny model

The importer turns a CSV export of a reading list into one Markdown file per
book. Each file begins with a `+++`-delimited, TOML-style front-matter header
that the static-site generator reads. This project models the importer's
logic and proves what it guarantees:

- `books.dfy` (module `Books`) holds the `Book` record, with its six CSV fields
  and the run date. It also holds the six CSV columns as a `Column` datatype
  with their lower-case header names, and the rules that decide when the
  rating (not empty and not `"NR"`) and the recommender (not empty) are shown.
- `filenames.dfy` (module `FileNames`) is the file-name sanitiser. In one
  left-to-right pass it turns a space into `_` and a `/` into `-`, and it
  deletes `:` and `'`. The output file name is the sanitised title followed
  by `.md`.
- `frontmatter.dfy` (module `Frontmatter`) is the front-matter renderer. The
  document is a sequence of `Line` values in a fixed order: the opening
  delimiter, title, date, two comments, the `[taxonomies]` table, three fixed
  entries, an optional rating and an optional recommender, then the closing
  delimiter and an empty line. `Content` is the concatenation of the lines'
  texts. The lemmas give the exact text of the whole document, where it starts
  and ends, where each line sits, and which taxonomy entries the renderer
  writes, how often and in what order.
- `importer.dfy` (module `Importer`) is the driver loop. The header row
  becomes a map from lower-cased column name to position, with the last
  duplicate winning. Every later row becomes a `Book` stamped with one
  run-wide date and is turned into a `Document`: the record, its file name and
  its text. `Run` is a loop over the parsed table. Its contract states which
  documents it produces, in order. It also states when the run stops early
  because a column lookup falls outside a row, which is a runtime panic in the
  program. Finally, it states that a rectangular table, the form the CSV
  reader produces by default, always runs to the end.

Two behaviours worth knowing. The model follows the program in both:

- Only the apostrophe itself is deleted, not the "s" after it. So
  `"Foo: Bar's/Baz"` becomes `Foo_Bars-Baz.md`: the colon and the apostrophe
  go, the space and the slash are replaced, and every other character stays
  (`FileNames.SanitizeExample`).
- A column that the header row does not name is not an error. A lookup of a
  missing key in the header map yields position 0, so that field is silently
  read from the row's first cell (`Importer.MissingColumnReadsFirstCell`).
  Only a position beyond the end of a row stops the run.

The statements about taxonomy entries (their order and how often each one
appears) are about the entries the renderer writes, not about matching
text. Values are pasted in unescaped, so a field holding a newline can put
text that looks like another entry into the document.

## Model

| member | source | states |
|---|---|---|
| FileNames.Sanitize | toml-bookparser.go:23-26 | no space, `/`, `:` or `'` survives sanitising |
| FileNames.SanitizeLength | toml-bookparser.go:24 | the sanitised name is exactly as much shorter as the title has colons and apostrophes |
| FileNames.SanitizeAppend | toml-bookparser.go:24-25 | sanitising a concatenation is the concatenation of the sanitised parts, since the rewrite has no look-ahead |
| FileNames.SanitizeAt | toml-bookparser.go:24 | every kept character lands, substituted, at its position minus the deletions before it; a character outside the four is kept unchanged |
| FileNames.SanitizeFixedPoint | toml-bookparser.go:24 | a name is left unchanged if and only if it holds none of the four rewritten characters |
| FileNames.SanitizeIdempotent | toml-bookparser.go:24-25 | sanitising twice gives the same result as sanitising once |
| FileNames.SanitizeChar | toml-bookparser.go:24 | a one-character name becomes that character's replacement |
| FileNames.FileName | toml-bookparser.go:102 | the file name is the sanitised title plus ".md"; its contract is stated by `FileNames.FileNameShape` |
| FileNames.FileNameShape | toml-bookparser.go:102 | the name is as long as the title minus its colons and apostrophes, plus 3; it ends in ".md"; no space, `/`, `:` or `'` comes before the suffix |
| FileNames.SanitizeExample | toml-bookparser.go:24-25 | "Foo: Bar's/Baz" becomes "Foo_Bars-Baz" |
| FileNames.FileNameCollision | toml-bookparser.go:102 | two different titles ("A/B" and "A-B") get the same file name "A-B.md" |
| Frontmatter.Render | toml-bookparser.go:31-48 | the text of one line, each as a format string or literal of the renderer; stated line by line by `Frontmatter.OpeningText` through `Frontmatter.ClosingText` |
| Frontmatter.Lines | toml-bookparser.go:31-48 | the lines the renderer writes, in order; their order and counts are stated by `Frontmatter.KeyOrder`, `Frontmatter.EntryCounts` and `Frontmatter.TitleAndDateLines` |
| Frontmatter.Content | toml-bookparser.go:29-51 | the rendered document; its exact text is stated by `Frontmatter.ContentText` |
| Frontmatter.OpeningText | toml-bookparser.go:31-33 | the opening lines read `+++`, `title = "<Title>"` and `date = <Date>`, with the date unquoted |
| Frontmatter.GuideText | toml-bookparser.go:34-36 | the two comment lines, then the `[taxonomies]` line |
| Frontmatter.FixedEntriesText | toml-bookparser.go:37-39 | the readstate, authorname and pubyear entries, in that order, each value quoted in a one-element array |
| Frontmatter.RatingText | toml-bookparser.go:42-44 | the rating entry's text when the rating is neither empty nor "NR", and nothing otherwise |
| Frontmatter.RecommenderText | toml-bookparser.go:45-47 | the recommender entry's text when the recommender is not empty, and nothing otherwise |
| Frontmatter.ClosingText | toml-bookparser.go:48 | the document closes with `+++` and an empty line |
| Frontmatter.ContentParts | toml-bookparser.go:29-51 | the document is the texts of its parts, appended in order |
| Frontmatter.ContentText | toml-bookparser.go:29-51 | the exact text of the whole document, with both optional lines conditional |
| Frontmatter.ContentStart | toml-bookparser.go:31-33 | the document starts with the delimiter, the quoted title line and the unquoted date line |
| Frontmatter.ContentEnd | toml-bookparser.go:48-50 | the document ends with "+++\n\n" |
| Frontmatter.TitleAndDateLines | toml-bookparser.go:31-33 | lines 1 and 2 are the title and date lines, and no other line is either |
| Frontmatter.KeyOrder | toml-bookparser.go:37-47 | the taxonomy entries the renderer writes are readstate, authorname, pubyear, then rating if shown, then recommender if shown |
| Frontmatter.EntryCounts | toml-bookparser.go:37-47 | among the entries the renderer writes (not text that merely looks like one), each fixed entry appears once; rating appears once if and only if it is shown, recommender likewise; title never does |
| Frontmatter.EntryValues | toml-bookparser.go:37-46 | every taxonomy entry carries the book field its key names, verbatim |
| Frontmatter.RatingLine | toml-bookparser.go:39-44 | a shown rating line comes straight after the pubyear line |
| Frontmatter.RecommenderLine | toml-bookparser.go:45-48 | a shown recommender line is the last line before the closing delimiter |
| Frontmatter.HiddenRatingIgnored | toml-bookparser.go:42 | an empty rating and an "NR" rating give the same document |
| Frontmatter.DuneExample | toml-bookparser.go:29-51 | a book with rating "NR" and no recommender gets only the lines written for every book |
| Importer.HeaderIndex | toml-bookparser.go:78-81 | the map the header loop leaves; stated by `Importer.HeaderIndexLastWins` |
| Importer.HeaderIndexLastWins | toml-bookparser.go:78-81 | the map's keys are exactly the lower-cased headers, and each maps to the last position whose header lower-cases to it |
| Importer.LastWinsUnique | toml-bookparser.go:78-81 | only one map has that property |
| Importer.BuildHeaderIndex | toml-bookparser.go:77-81 | the header loop builds that map |
| Importer.Position | toml-bookparser.go:89-94 | the zero-default map lookup of a column's name; stated by `Importer.PositionOfHeader` |
| Importer.PositionOfHeader | toml-bookparser.go:89-94 | a column is read from the last position named by it, or from position 0 when no header names it |
| Importer.MapRow | toml-bookparser.go:88-96 | a record exists exactly when every lookup lands inside the row; its date is the run date; every field is the cell at the column's position |
| Importer.MissingColumnReadsFirstCell | toml-bookparser.go:89-94 | a column no header names is read from the row's first cell |
| Importer.RectangularInRange | toml-bookparser.go:77-94 | in a table whose rows all have as many cells as a non-empty header, every lookup lands inside every row |
| Importer.Emit | toml-bookparser.go:99-102 | the document for one record: the record, `sanitize(Title) + ".md"` and the rendered text; stated through `Importer.Run` |
| Importer.Run | toml-bookparser.go:71-102 | fewer than two records stop the run; otherwise rows 1.. are converted in order; each document has the record, `sanitize(Title) + ".md"` and the rendered text; all records share the run date; a lookup outside a row stops the run there; a rectangular table always finishes |

## Left out

- Opening and reading the CSV file and the CSV parser (toml-bookparser.go:55-68) are outside the model. The parsed table is a parameter.
- The clock (toml-bookparser.go:84) is outside the model. The run date is a parameter.
- Writing each file, a failed write that skips to the next row, and the console messages (toml-bookparser.go:105-110) are outside the model. `Run` returns the documents the program tries to write, in order.
- File-system collisions are not modelled: when two titles give the same file name, the later write replaces the earlier one. The model only shows that such titles exist (`FileNames.FileNameCollision`).
- Importer.Lower: lower-cases ASCII letters only. Unicode case mapping is not modelled.
- Frontmatter.Content: modelled as the concatenation of the texts of a sequence of lines, not as a string variable appended to in place; the text is the same.
- The rendered values are not escaped, so the header is not always valid TOML. No validity property is stated.
- A Go panic is modelled as an `Outcome` value that ends the run, not as a crash of the process.
