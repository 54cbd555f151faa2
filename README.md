# alfred-bear query layer, in Dafny

This project models the core of `db/db.go` from the alfred-bear Alfred workflow. That file is the
read-only query layer over the Bear notes database. The model covers three parts:

- **`NoteList`** (`notelist.dfy`, module `NoteLists`) is an insertion-ordered set of `Note{ID, Title}`
  values. It is a class with a membership map (`members`, the Go `map[Note]bool`) and an ordered
  `slice`. `AppendNew` is its only mutator. It is proved against `AppendNewTo`, a function that says
  what an append produces. The lemmas about `AppendNewTo` cover duplicate freedom, the unchanged
  prefix, membership, first-seen order, bulk versus one-by-one merging, and idempotence.
- **`BearDB`** (`bear.dfy`, module `BearDb`) is the orchestrator. It fills the query templates,
  appends `" LIMIT <n>"`, turns rows into notes, and merges results. This covers `gapQuery` (the
  literal lookup, then the word-gap lookup with every space widened to `"% %"`) and `SearchNotes`
  (title gap search, then text gap search). Each note-returning method also returns, as a ghost
  out-parameter, the exact query texts it sent to the store. Each method is proved equal to a
  specification function (`QueryNotesSpec`, `GapSpec`, `SearchSpec`). Lemmas then state which
  queries are issued, in what order, how the results merge, and how errors cut the work short.
- **Go library pieces** (`strings.dfy`, module `GoStrings`):
  - `fmt.Sprintf` with one string operand, including the `%%` escape and Go's
    `%!v(MISSING)`, `%!(NOVERB)` and `%!(EXTRA …)` reports;
  - `%v` of an `int`;
  - `strings.Split` on a one-character separator, and `strings.Join` with any separator (db/db.go
    joins with the three-character `"% %"`).

The SQLite adapter (`LiteDB`) is replaced by a `Store`: a pair of oracle functions from query text
to rows (or strings) or an error, passed in as data. The model fixes nothing about what the store
answers. Each SQL template is kept as the text before and after its one slot. The Go format text is
`Escape(head) + "%v" + Escape(tail)`. The operations fill a template with `Template.Fill`
(`head + fill + tail`), and `Template.FormatFills` proves that this is what `Sprintf` makes of the
Go text.

The model keeps these behaviours of db/db.go as written:
- `GetTitle`'s "not found" result is an ordinary error with the message `No notes for ID '<id>'`. It
  is not a separate kind of error.
- The fill is split on every single space. Consecutive, leading or trailing spaces produce empty
  words, and these still get joined with `"% %"`.
- User text is substituted into the SQL text. No parameter binding is used.

## Model

| member | source | states |
|---|---|---|
| `NoteLists.NoteList.constructor` | db/db.go:100-106 | `NewNoteList` gives a list that satisfies the invariant, with an empty map and an empty slice |
| `NoteLists.NoteList.Contains` | db/db.go:108-111 | the map lookup answers true exactly when the note occurs in the slice |
| `NoteLists.NoteList.AppendNew` | db/db.go:113-120 | keeps the invariant (no duplicates; the map and the slice hold the same notes) and leaves the slice equal to `AppendNewTo(old slice, other)` |
| `NoteLists.NoteList.AppendNewFrom` | db/db.go:122-124 | merging another list has the same effect as `AppendNew` over that list's slice in order |
| `NoteLists.NoteList.GetSlice` | db/db.go:130-132 | returns the slice; it has no duplicates and holds exactly the notes `Contains` reports |
| `NoteLists.NoteList.Get` | db/db.go:134-136 | the i-th note is a member, and no other position holds it |
| `NoteLists.NoteList.Len` | db/db.go:138-140 | the slice length, which equals the number of distinct members in the map |
| `NoteLists.AppendNewShape` | db/db.go:113-120 | after an append, the old contents are an unchanged prefix; every added note comes from the arguments and was not already present; the result holds exactly the old notes and the arguments; at most one note is added per argument |
| `NoteLists.AppendNewNoDup` | db/db.go:113-120 | an append never creates a duplicate, including when the arguments repeat a note |
| `NoteLists.AppendNewOrder` | db/db.go:113-120 | the added notes keep the order of their first occurrences among the arguments |
| `NoteLists.AppendNewPresent` | db/db.go:113-120 | appending only notes that are already present changes nothing |
| `NoteLists.AppendNewConcat` | db/db.go:122-124 | appending `b` and then `c` is the same as appending `b + c`, so a bulk merge equals one-by-one appends |
| `NoteLists.AppendNewIdempotent` | db/db.go:122-124 | merging the same notes a second time changes nothing |
| `NoteLists.AppendNewDedup` | db/db.go:122-124 | merging a list that contains duplicates gives the same result as merging its distinct notes |
| `GoStrings.Sprintf` | db/db.go:164 | a format with no `%` prints as itself, followed by Go's `%!(EXTRA string=…)` report of the unused operand |
| `GoStrings.SprintfOneSlot` | db/db.go:214 | `Sprintf` of a format with exactly one `%v` slot and escaped surroundings gives the surroundings with the operand in the slot, once |
| `GoStrings.SprintfLikeSlot` | db/db.go:65 | the `'%%%v%%'` slot renders as `%fill%`, the contains-pattern of SQL `LIKE` |
| `GoStrings.SplitMany` | db/db.go:219-220 | `strings.Split` on `" "` gives more than one piece exactly when the text contains a space |
| `GoStrings.Split` | db/db.go:219 | `strings.Split` gives one piece more than there are separators, and no piece contains the separator |
| `GoStrings.Join` | db/db.go:222 | `strings.Join` of at least one piece is as long as the pieces plus one separator between each two, and starts with the first piece; no pieces give `""` |
| `GoStrings.JoinSplit` | db/db.go:222 | joining the split words with `"% %"` gives the fill with every space replaced by `"% %"` |
| `GoStrings.SplitJoinRoundTrip` | db/db.go:219-222 | joining the pieces with the separator itself gives back the original text |
| `GoStrings.Decimal` | db/db.go:160 | the `%v` of an int is a `-` exactly for negatives, then digits only, with no leading zero unless it is `0` |
| `GoStrings.DecimalRoundTrip` | db/db.go:160 | the `%v` rendering of an int reads back as the same int and contains no space |
| `BearDb.Template.FormatFills` | db/db.go:214 | `Sprintf` of a template's Go format text with `fill` gives the template's head, then `fill`, then its tail |
| `BearDb.LikeTemplate` | db/db.go:57-68 | filling a LIKE template wraps the fill in `%` wildcards |
| `BearDb.LikeTemplateFormat` | db/db.go:65 | the Go text of a LIKE template is its SQL text with the `'%%%v%%'` slot |
| `BearDb.ToNoteSlice` | db/db.go:170-180 | one note per row, in row order: the ID comes from `ZUNIQUEIDENTIFIER` and the title from `ZTITLE`, and a missing column reads as `""` |
| `BearDb.MergeAfterFacts` | db/db.go:224-228 | after a first result, a second query's failure keeps the first notes and takes the second error; otherwise the new notes follow; the first notes stay a prefix; no duplicates appear; the issued queries are concatenated |
| `BearDb.BearDB.LimitQuery` | db/db.go:159-161 | the limited query is `q` followed by `" LIMIT "` and a numeral that reads back as the limit and holds no space; it ends with the limit clause |
| `BearDb.BearDB.SearchTags` | db/db.go:163-168 | one limited query is sent, and it is `Sprintf` of the Go tag template with the text, followed by the limit clause: the tag SQL with `%text%` as its `LIKE` pattern; the call succeeds exactly when the store does, returning the store's strings; on failure there are no tags and the store's error |
| `BearDb.BearDB.QueryNotesResult` | db/db.go:182-192 | exactly one limited query is issued; a store error gives an empty list with that error; otherwise there is no error, no duplicates, at most one note per row, every row's note is present and nothing else |
| `BearDb.BearDB.QueryNotes` | db/db.go:182-192 | returns a fresh valid list and equals `QueryNotesSpec`: the limited query, the distinct notes of its rows, or an empty list with the error |
| `BearDb.BearDB.GetRecent` | db/db.go:194-197 | the recent-notes query run through `QueryNotes` |
| `BearDb.BearDB.NoNotesFor` | db/db.go:207-208 | the error message is `Sprintf` of the Go format `No notes for ID '%v'` with the identifier |
| `BearDb.BearDB.GetTitle` | db/db.go:199-211 | succeeds exactly when the limited id lookup gives at least one row, and then returns the first title; zero rows give the `No notes for ID '<id>'` error; a store error is passed on; both errors come with `""` |
| `BearDb.BearDB.GapSingleQuery` | db/db.go:213-220 | a fill without a space issues exactly one query (the filled, limited template), and the result is that query's result |
| `BearDb.BearDB.GapWordSearch` | db/db.go:219-229 | for a fill with a space, after the literal lookup succeeds, the second query is the template filled with every space replaced by `"% %"`; the two queries are issued in that order and the second result is merged after the first |
| `BearDb.BearDB.GapResult` | db/db.go:213-231 | the literal lookup's notes are a prefix of the result; no duplicates; a failed first lookup stops with an empty list and one query; a failed second lookup returns the first notes with its error; one or two queries are issued, all limited |
| `BearDb.BearDB.GapQuery` | db/db.go:213-231 | returns a fresh valid list and equals `GapSpec`: the notes, the error and the issued queries |
| `BearDb.BearDB.SearchNotesByTitle` | db/db.go:233-236 | gap search with the title template |
| `BearDb.BearDB.SearchNotesByText` | db/db.go:238-241 | gap search with the text template |
| `BearDb.BearDB.GapsMergedResult` | db/db.go:243-254 | for any two templates, the first gap search leads; its failure stops before the second search; a failed second search keeps the first notes with its error; otherwise the second search's new notes follow; no duplicates; 1 to 4 limited queries |
| `BearDb.BearDB.SearchResult` | db/db.go:243-254 | title results are a prefix of the combined result; a title error issues no text query; a text error returns the title notes with that error; on success the text notes not already present follow; no duplicates |
| `BearDb.BearDB.SearchNotes` | db/db.go:243-254 | returns a fresh valid list and equals `SearchSpec`: the notes, the error and the issued queries |
| `BearDb.NewBearDB` | db/db.go:151-157 | the orchestrator uses the given store and the row limit 25, so every query ends in `" LIMIT 25"` |

## Left out

- `LiteDB` (`NewLiteDB`, `Query`, `QueryStringMaps`, `QueryStrings`, db/db.go:260-342) and `B2S` are
  driver I/O. The `Store` oracles take their place. Partial rows returned with a scan error are not
  modelled, because every caller discards them. The panic on a non-text column is not modelled either.
- `QueryStrings` takes a value from a row's columns in Go's random map order. The `queryStrings` oracle
  returns one string per row directly, so that choice is not modelled.
- `NewBearDB`: the home-directory path expansion and the opening of the database file are I/O. The
  model takes the opened store as a parameter and keeps only the limit of 25.
- `NoteList.String` is `fmt` formatting of the slice. It is cosmetic.
- The meaning of the SQL text (`LIKE`, `lower`, `DISTINCT`, `ORDER BY`, the archived/trashed filters,
  SQL injection through quotes in the fill) belongs to the SQLite engine. The model treats the query
  text as opaque, so it makes no claim about which notes match or about the row cap being honoured.
- `GoStrings.Sprintf`: directives other than `%v` and `%%` (other verbs, flags, widths) are copied
  verbatim rather than rendered as Go would. The templates of db/db.go use only these two.
- `NoteLists.NoteList`: Go's value copies of a `NoteList` share the map but not the slice header. The
  model's list is a single object, and that sharing is not modelled. db/db.go never mutates a list
  through a copy.
- `BearDb.BearDB.limit` is an unbounded `int`, not Go's 64-bit `int`. Only the constant 25 is ever used.
- `BearDb.BearDB.LimitQuery`: Go builds the clause with `Sprintf("%s LIMIT %v", q, limit)`, a format
  with two operands. The model writes it as `q + " LIMIT " + Decimal(limit)`, because its `Sprintf`
  takes one string operand. That format has no `%%` and no stray verb, so the text is the same.
- `NoteLists.NoteList.Get`: Go panics when the index is out of range. The model requires an index in
  range instead of modelling the panic. db/db.go itself never calls `Get`.
