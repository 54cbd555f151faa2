/**
 * The query layer of db/db.go (`BearDB`): fills the SQL templates, appends the
 * row limit, turns rows into notes, and merges the results of several queries
 * into one duplicate-free `NoteList`.
 *
 * The SQLite adapter (`LiteDB`) is not part of this model: a `Store` stands in
 * for it as two oracle functions from query text to rows or an error. Every
 * operation that queries the store reports, as a ghost out-parameter, the exact
 * query texts it issued, in order.
 */
module BearDb {
  import opened NoteLists
  import opened GoStrings

  datatype Option<T> = None | Some(value: T)

  /** A Go `error`: only its message is observable. */
  datatype Error = Error(message: string)

  datatype Result<T> = Ok(value: T) | Fail(error: Error)

  /** A result row: column name to text value. */
  type Row = map<string, string>

  /**
   * The adapter's two entry points: `QueryStringMaps` (rows as maps) and
   * `QueryStrings` (the value of the single column of each row).
   */
  datatype Store = Store(
    queryStringMaps: string -> Result<seq<Row>>,
    queryStrings: string -> Result<seq<string>>)

  /* ---------------------------------------------------------------------- */
  /* Query templates                                                        */
  /* ---------------------------------------------------------------------- */

  /** A SQL template with one slot: the text before it and the text after it. */
  datatype Template = Template(head: string, tail: string)
  {
    /** The Go format string: `head` and `tail` with '%' escaped around one "%v". */
    function Format(): string
    {
      Escape(head) + "%v" + Escape(tail)
    }

    /**
     * The query text with `fill` in the slot: what `Sprintf` makes of the
     * format text (`FormatFills`).
     */
    function Fill(fill: string): string
    {
      head + fill + tail
    }

    /** `Sprintf` of the format with `fill` is the template filled with `fill`. */
    lemma FormatFills(fill: string)
      ensures Sprintf(Format(), fill) == Fill(fill)
    {
      SprintfOneSlot(head, tail, fill);
    }
  }

  /** A template whose slot is a `LIKE` contains-pattern: the fill is wrapped in '%' wildcards. */
  function LikeTemplate(before: string, after: string): (t: Template)
    ensures forall fill :: t.Fill(fill) == before + "%" + fill + "%" + after
  {
    Template(before + "%", "%" + after)
  }

  /** The Go text of a `LIKE` template is `before` + "%%%v%%" + `after`, escaped. */
  lemma LikeTemplateFormat(before: string, after: string)
    ensures LikeTemplate(before, after).Format() == Escape(before) + "%%%v%%" + Escape(after)
  {
    EscapeAroundSlot(before, after);
  }

  /** The SQL text of the tag search before and after its `LIKE` pattern. */
  const TagBefore: string :=
    "\n\tSELECT DISTINCT\n\t\tt.ZTITLE \n\tFROM \n\t\tZSFNOTE n \n" +
    "\t\tINNER JOIN Z_5TAGS nt ON n.Z_PK = nt.Z_5NOTES \n" +
    "\t\tINNER JOIN ZSFNOTETAG t ON nt.Z_10TAGS = t.Z_PK \n" +
    "\tWHERE \n\t\tn.ZARCHIVED=0 \n\t\tAND n.ZTRASHED=0 \n" +
    "\t\tAND lower(t.ZTITLE) LIKE lower('"
  const TagAfter: string := "')\n\tORDER BY \n\t\tt.ZMODIFICATIONDATE DESC \n"

  const TagQuery: Template := LikeTemplate(TagBefore, TagAfter)

  const RecentQuery: string :=
    "\n\tSELECT DISTINCT\n\t\tZUNIQUEIDENTIFIER, ZTITLE \n\tFROM \n\t\tZSFNOTE \n" +
    "\tWHERE \n\t\tZARCHIVED=0 \n\t\tAND ZTRASHED=0 \n" +
    "\tORDER BY \n\t\tZMODIFICATIONDATE DESC \n"

  const TitleByIdQuery: Template := Template(
    "\n\tSELECT DISTINCT\n\t\tZTITLE \n\tFROM \n\t\tZSFNOTE \n" +
    "\tWHERE \n\t\tZARCHIVED=0 \n\t\tAND ZTRASHED=0 \n" +
    "\t\tAND ZUNIQUEIDENTIFIER='",
    "' \n\tORDER BY \n\t\tZMODIFICATIONDATE DESC \n")

  const NotesByTitleQuery: Template := LikeTemplate(
    "\n\tSELECT DISTINCT\n\t\tZUNIQUEIDENTIFIER, ZTITLE \n\tFROM \n\t\tZSFNOTE \n" +
    "\tWHERE \n\t\tZARCHIVED=0 \n\t\tAND ZTRASHED=0 \n" +
    "\t\tAND lower(ZTITLE) LIKE lower('",
    "')\n\tORDER BY \n\t\tZMODIFICATIONDATE DESC \n")

  const NotesByTextQuery: Template := LikeTemplate(
    "\n\tSELECT DISTINCT\n\t\tZUNIQUEIDENTIFIER, ZTITLE \n\tFROM \n\t\tZSFNOTE \n" +
    "\tWHERE \n\t\tZARCHIVED=0 \n\t\tAND ZTRASHED=0 \n" +
    "\t\tAND lower(ZTEXT) LIKE lower('",
    "')\n\tORDER BY \n\t\tZMODIFICATIONDATE DESC \n")

  /** The message of the "no notes" error, around the identifier. */
  const NoNotesMessage: Template := Template("No notes for ID '", "'")

  /** The row limit `NewBearDB` installs. */
  const DefaultLimit: int := 25

  /** What the gap search puts between the words of a phrase. */
  const WordGap: string := "% %"

  /* ---------------------------------------------------------------------- */
  /* Rows to notes                                                          */
  /* ---------------------------------------------------------------------- */

  const IdColumn: string := "ZUNIQUEIDENTIFIER"
  const TitleColumn: string := "ZTITLE"

  /** A Go map lookup: a missing column reads as the empty string. */
  function Column(row: Row, name: string): string
  {
    if name in row then row[name] else ""
  }

  /** The note of a row: its identifier and title columns. */
  function RowNote(row: Row): Note
  {
    Note(Column(row, IdColumn), Column(row, TitleColumn))
  }

  function NotesOf(rows: seq<Row>): seq<Note>
  {
    seq(|rows|, i requires 0 <= i < |rows| => RowNote(rows[i]))
  }

  /** `toNoteSlice`: one note per row, in row order. */
  method ToNoteSlice(rows: seq<Row>) returns (notes: seq<Note>)
    ensures |notes| == |rows|
    ensures forall i :: 0 <= i < |rows| ==> notes[i] == RowNote(rows[i])
  {
    notes := [];
    var i := 0;
    while i < |rows|
      invariant 0 <= i <= |rows|
      invariant |notes| == i
      invariant forall k :: 0 <= k < i ==> notes[k] == RowNote(rows[k])
    {
      notes := notes + [RowNote(rows[i])];
      i := i + 1;
    }
  }

  /* ---------------------------------------------------------------------- */
  /* Outcomes of note queries                                               */
  /* ---------------------------------------------------------------------- */

  /** The notes a query operation returns, its error, and the queries it issued. */
  datatype Outcome = Outcome(notes: seq<Note>, err: Option<Error>, issued: seq<string>)

  /**
   * The step shared by the gap search and the combined search: after `first`
   * succeeded, run `second`; on its failure keep `first`'s notes with its
   * error, otherwise merge its notes after `first`'s.
   */
  function MergeAfter(first: Outcome, second: Outcome): Outcome
  {
    if second.err.Some? then Outcome(first.notes, second.err, first.issued + second.issued)
    else Outcome(AppendNewTo(first.notes, second.notes), None, first.issued + second.issued)
  }

  /**
   * The first operation's notes come first and are never dropped; the result
   * holds no note twice, nothing but notes of the two operations, and on
   * success every note of both; the error is the second operation's.
   */
  lemma MergeAfterFacts(first: Outcome, second: Outcome)
    requires NoDup(first.notes)
    ensures var m := MergeAfter(first, second);
      |first.notes| <= |m.notes| && m.notes[..|first.notes|] == first.notes &&
      NoDup(m.notes) &&
      m.err == second.err &&
      m.issued == first.issued + second.issued &&
      (second.err.Some? ==> m.notes == first.notes) &&
      (forall n :: n in m.notes ==> n in first.notes || n in second.notes) &&
      (second.err.None? ==> forall n :: n in second.notes ==> n in m.notes)
  {
    AppendNewShape(first.notes, second.notes);
    AppendNewNoDup(first.notes, second.notes);
  }

  /* ---------------------------------------------------------------------- */
  /* BearDB                                                                 */
  /* ---------------------------------------------------------------------- */

  /** The query orchestrator: the store and the row limit of every query. */
  datatype BearDB = BearDB(lite: Store, limit: int)
  {
    /** The clause `limitQuery` appends. */
    function LimitSuffix(): string
    {
      " LIMIT " + Decimal(limit)
    }

    /** The query ends with the row-limit clause. */
    predicate Limited(q: string)
    {
      |q| >= |LimitSuffix()| && q[|q| - |LimitSuffix()|..] == LimitSuffix()
    }

    /**
     * `limitQuery`: the limited query keeps `q` as its prefix and ends with
     * " LIMIT " and a numeral that reads back as the limit.
     */
    function LimitQuery(q: string): (r: string)
      ensures |r| > |q| + 7 && r[..|q|] == q && r[|q|..|q| + 7] == " LIMIT "
      ensures ParseDecimal(r[|q| + 7..]) == limit && ' ' !in r[|q| + 7..]
      ensures Limited(r)
    {
      DecimalRoundTrip(limit);
      var r := q + LimitSuffix();
      assert r[|q| + 7..] == Decimal(limit);
      assert r[|r| - |LimitSuffix()|..] == LimitSuffix();
      r
    }

    /**
     * `SearchTags`: the store is asked for strings with one limited query, the
     * Go tag template with `s` in its `LIKE` slot as `%s%`; the reply's strings
     * come back on success, no tags and the store's error on failure.
     */
    function SearchTags(s: string): (r: (seq<string>, Option<Error>))
      ensures var q := LimitQuery(TagQuery.Fill(s));
        var reply := lite.queryStrings(q);
        Limited(q) && q == Sprintf(TagQuery.Format(), s) + LimitSuffix() &&
        q == TagBefore + "%" + s + "%" + TagAfter + LimitSuffix() &&
        (r.1 == None <==> reply.Ok?) &&
        (reply.Ok? ==> r.0 == reply.value) &&
        (reply.Fail? ==> r.0 == [] && r.1 == Some(reply.error))
    {
      TagQuery.FormatFills(s);
      var q := LimitQuery(TagQuery.Fill(s));
      match lite.queryStrings(q)
      case Ok(tags) => (tags, None)
      case Fail(e) => ([], Some(e))
    }

    /** What `QueryNotes` returns and issues. */
    function QueryNotesSpec(query: string): Outcome
    {
      var q := LimitQuery(query);
      match lite.queryStringMaps(q)
      case Fail(e) => Outcome([], Some(e), [q])
      case Ok(rows) => Outcome(Dedup(NotesOf(rows)), None, [q])
    }

    /**
     * `QueryNotes` issues exactly the limited query; on failure it returns an
     * empty list with the error; otherwise the distinct notes of the rows, each
     * row's note present, nothing else, and no more notes than rows.
     */
    lemma QueryNotesResult(query: string)
      ensures var o := QueryNotesSpec(query);
        var reply := lite.queryStringMaps(LimitQuery(query));
        o.issued == [LimitQuery(query)] && Limited(o.issued[0]) && NoDup(o.notes) &&
        (reply.Fail? ==> o.notes == [] && o.err == Some(reply.error)) &&
        (reply.Ok? ==>
          o.err == None && |o.notes| <= |reply.value| &&
          (forall i :: 0 <= i < |reply.value| ==> RowNote(reply.value[i]) in o.notes) &&
          (forall n :: n in o.notes ==> exists i :: 0 <= i < |reply.value| && n == RowNote(reply.value[i])))
    {
      var reply := lite.queryStringMaps(LimitQuery(query));
      if reply.Ok? {
        var ns := NotesOf(reply.value);
        AppendNewShape([], ns);
        AppendNewNoDup([], ns);
        forall i | 0 <= i < |reply.value|
          ensures RowNote(reply.value[i]) in Dedup(ns)
        {
          assert ns[i] == RowNote(reply.value[i]);
        }
        forall n | n in Dedup(ns)
          ensures exists i :: 0 <= i < |reply.value| && n == RowNote(reply.value[i])
        {
          var i :| 0 <= i < |ns| && ns[i] == n;
        }
      }
    }

    /** `QueryNotes`: the limited query's rows, as a duplicate-free list. */
    method QueryNotes(query: string) returns (notes: NoteList, err: Option<Error>, ghost issued: seq<string>)
      ensures fresh(notes) && notes.Valid()
      ensures Outcome(notes.slice, err, issued) == QueryNotesSpec(query)
    {
      var q := LimitQuery(query);
      issued := [q];
      var maps := lite.queryStringMaps(q);
      notes := new NoteList();
      if maps.Fail? {
        err := Some(maps.error);
        return;
      }
      var slice := ToNoteSlice(maps.value);
      assert slice == NotesOf(maps.value);
      notes.AppendNew(slice);
      err := None;
    }

    /** `GetRecent`: the most recent notes, capped by the limit. */
    method GetRecent() returns (notes: NoteList, err: Option<Error>, ghost issued: seq<string>)
      ensures fresh(notes) && notes.Valid()
      ensures Outcome(notes.slice, err, issued) == QueryNotesSpec(RecentQuery)
    {
      notes, err, issued := QueryNotes(RecentQuery);
    }

    /**
     * The error `GetTitle` reports when no row matches the identifier: Go's
     * `Errorf` of the format `No notes for ID '%v'` (`NoNotesMessage`).
     */
    function NoNotesFor(id: string): (e: Error)
      ensures e.message == Sprintf(NoNotesMessage.Format(), id)
    {
      NoNotesMessage.FormatFills(id);
      Error(NoNotesMessage.Fill(id))
    }

    /**
     * `GetTitle`: the first title the identifier lookup yields; a lookup with no
     * rows is the "no notes" error, and a store error is passed on, both with "".
     */
    function GetTitle(id: string): (r: (string, Option<Error>))
      ensures var reply := lite.queryStrings(LimitQuery(TitleByIdQuery.Fill(id)));
        (r.1 == None <==> reply.Ok? && |reply.value| > 0) &&
        (r.1 == None ==> r.0 == reply.value[0]) &&
        (r.1 != None ==> r.0 == "") &&
        (reply.Ok? && reply.value == [] ==> r.1 == Some(NoNotesFor(id))) &&
        (reply.Fail? ==> r.1 == Some(reply.error))
    {
      var q := LimitQuery(TitleByIdQuery.Fill(id));
      match lite.queryStrings(q)
      case Fail(e) => ("", Some(e))
      case Ok(titles) =>
        if |titles| == 0 then ("", Some(NoNotesFor(id)))
        else (titles[0], None)
    }

    /** What `gapQuery` returns and issues. */
    function GapSpec(template: Template, fill: string): Outcome
    {
      var first := QueryNotesSpec(template.Fill(fill));
      if first.err.Some? then first
      else
        var split := Split(fill, ' ');
        if |split| > 1 then
          MergeAfter(first, QueryNotesSpec(template.Fill(Join(split, WordGap))))
        else first
    }

    /** A fill without a space is looked up once, and that lookup is the result. */
    lemma GapSingleQuery(template: Template, fill: string)
      requires ' ' !in fill
      ensures GapSpec(template, fill) == QueryNotesSpec(template.Fill(fill))
      ensures GapSpec(template, fill).issued == [LimitQuery(template.Fill(fill))]
    {
      SplitMany(fill, ' ');
    }

    /**
     * A fill with a space, once the literal lookup succeeded, is looked up a
     * second time with every space widened to "% %"; the second lookup's notes
     * are merged after the first's.
     */
    lemma GapWordSearch(template: Template, fill: string)
      requires ' ' in fill
      requires QueryNotesSpec(template.Fill(fill)).err.None?
      ensures var gap := template.Fill(Replace(fill, ' ', WordGap));
        GapSpec(template, fill) == MergeAfter(QueryNotesSpec(template.Fill(fill)), QueryNotesSpec(gap)) &&
        GapSpec(template, fill).issued == [LimitQuery(template.Fill(fill)), LimitQuery(gap)]
    {
      SplitMany(fill, ' ');
      JoinSplit(fill, ' ', WordGap);
    }

    /**
     * Whatever happens: the literal lookup's notes are a prefix of the result
     * and none is lost; no note occurs twice; a failed literal lookup stops the
     * search with an empty list; a failed second lookup leaves the literal
     * lookup's notes with that error; one or two limited queries are issued.
     */
    lemma GapResult(template: Template, fill: string)
      ensures var first := QueryNotesSpec(template.Fill(fill));
        var g := GapSpec(template, fill);
        |first.notes| <= |g.notes| && g.notes[..|first.notes|] == first.notes &&
        NoDup(g.notes) &&
        (first.err.Some? ==> g == first && g.notes == []) &&
        (first.err.None? && g.err.Some? ==> g.notes == first.notes) &&
        1 <= |g.issued| <= 2 && g.issued[0] == LimitQuery(template.Fill(fill)) &&
        (forall k :: 0 <= k < |g.issued| ==> Limited(g.issued[k]))
    {
      var first := QueryNotesSpec(template.Fill(fill));
      QueryNotesResult(template.Fill(fill));
      var split := Split(fill, ' ');
      if first.err.None? && |split| > 1 {
        var gap := template.Fill(Join(split, WordGap));
        QueryNotesResult(gap);
        MergeAfterFacts(first, QueryNotesSpec(gap));
      }
    }

    /** `gapQuery`: the literal lookup, then the word-gap lookup when the fill has a space. */
    method GapQuery(template: Template, fill: string)
      returns (notes: NoteList, err: Option<Error>, ghost issued: seq<string>)
      ensures fresh(notes) && notes.Valid()
      ensures Outcome(notes.slice, err, issued) == GapSpec(template, fill)
    {
      var q := template.Fill(fill);
      notes, err, issued := QueryNotes(q);
      if err.Some? {
        return;
      }
      var split := Split(fill, ' ');
      if |split| > 1 {
        var join := Join(split, WordGap);
        var moreNotes, moreErr, moreIssued := QueryNotes(template.Fill(join));
        issued := issued + moreIssued;
        if moreErr.Some? {
          err := moreErr;
          return;
        }
        notes.AppendNewFrom(moreNotes);
      }
    }

    /** `SearchNotesByTitle`: gap search over note titles. */
    method SearchNotesByTitle(title: string)
      returns (notes: NoteList, err: Option<Error>, ghost issued: seq<string>)
      ensures fresh(notes) && notes.Valid()
      ensures Outcome(notes.slice, err, issued) == GapSpec(NotesByTitleQuery, title)
    {
      notes, err, issued := GapQuery(NotesByTitleQuery, title);
    }

    /** `SearchNotesByText`: gap search over note bodies. */
    method SearchNotesByText(text: string)
      returns (notes: NoteList, err: Option<Error>, ghost issued: seq<string>)
      ensures fresh(notes) && notes.Valid()
      ensures Outcome(notes.slice, err, issued) == GapSpec(NotesByTextQuery, text)
    {
      notes, err, issued := GapQuery(NotesByTextQuery, text);
    }

    /** What `SearchNotes` returns and issues. */
    function SearchSpec(text: string): Outcome
    {
      var titles := GapSpec(NotesByTitleQuery, text);
      if titles.err.Some? then titles
      else MergeAfter(titles, GapSpec(NotesByTextQuery, text))
    }

    /**
     * The facts of `SearchResult` for any two templates: the first gap search's
     * notes lead; its failure stops before the second search; a failed second
     * search keeps the first's notes with its error; otherwise the second's new
     * notes follow. No note occurs twice and every issued query is limited.
     */
    lemma GapsMergedResult(first: Template, second: Template, text: string)
      ensures var a := GapSpec(first, text);
        var b := GapSpec(second, text);
        var s := if a.err.Some? then a else MergeAfter(a, b);
        |a.notes| <= |s.notes| && s.notes[..|a.notes|] == a.notes &&
        NoDup(s.notes) &&
        (a.err.Some? ==> s == a) &&
        (a.err.None? ==> s.issued == a.issued + b.issued && s.err == b.err) &&
        (a.err.None? && b.err.Some? ==> s.notes == a.notes) &&
        (a.err.None? && b.err.None? ==> s.notes == AppendNewTo(a.notes, b.notes)) &&
        1 <= |s.issued| <= 4 &&
        (forall k :: 0 <= k < |s.issued| ==> Limited(s.issued[k]))
    {
      var a := GapSpec(first, text);
      var b := GapSpec(second, text);
      GapResult(first, text);
      if a.err.None? {
        GapResult(second, text);
        MergeAfterFacts(a, b);
      }
    }

    /**
     * The title search's notes lead the combined result; a failed title search
     * stops before any text query; a failed text search returns the title notes
     * with its error; otherwise the text notes not yet present follow. No note
     * occurs twice and every issued query is limited.
     */
    lemma SearchResult(text: string)
      ensures var titles := GapSpec(NotesByTitleQuery, text);
        var bodies := GapSpec(NotesByTextQuery, text);
        var s := SearchSpec(text);
        |titles.notes| <= |s.notes| && s.notes[..|titles.notes|] == titles.notes &&
        NoDup(s.notes) &&
        (titles.err.Some? ==> s == titles) &&
        (titles.err.None? ==> s.issued == titles.issued + bodies.issued && s.err == bodies.err) &&
        (titles.err.None? && bodies.err.Some? ==> s.notes == titles.notes) &&
        (titles.err.None? && bodies.err.None? ==> s.notes == AppendNewTo(titles.notes, bodies.notes)) &&
        1 <= |s.issued| <= 4 &&
        (forall k :: 0 <= k < |s.issued| ==> Limited(s.issued[k]))
    {
      GapsMergedResult(NotesByTitleQuery, NotesByTextQuery, text);
    }

    /** `SearchNotes`: title gap search, then text gap search, merged. */
    method SearchNotes(text: string)
      returns (notes: NoteList, err: Option<Error>, ghost issued: seq<string>)
      ensures fresh(notes) && notes.Valid()
      ensures Outcome(notes.slice, err, issued) == SearchSpec(text)
    {
      notes, err, issued := SearchNotesByTitle(text);
      if err.Some? {
        return;
      }
      var textNotes, textErr, textIssued := SearchNotesByText(text);
      issued := issued + textIssued;
      if textErr.Some? {
        err := textErr;
        return;
      }
      notes.AppendNewFrom(textNotes);
    }
  }

  /** `NewBearDB`, given the opened store: the default limit of 25 rows. */
  function NewBearDB(lite: Store): (db: BearDB)
    ensures db.lite == lite && db.LimitSuffix() == " LIMIT 25"
  {
    BearDB(lite, DefaultLimit)
  }
}
