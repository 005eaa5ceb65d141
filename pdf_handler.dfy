/**
 * The curriculum scraper, without its network and PDF libraries: the spider
 * checks its specialization and study year before building the request for
 * the curriculum PDF, and turns the tables extracted from the PDF, page by
 * page and table by table, into (course name, credits) records. Each table
 * row is a sequence of optional cell texts, as the table extractor returns
 * it; Python's `float()` and `int()` are passed in as `parseReal` and
 * `parseInt`.
 */
module PdfHandler {
  import opened Wrappers
  import opened Text
  import opened Models
  import opened Seqs

  /** A table cell as the extractor returns it: its text, or `None`. */
  type Cell = Option<string>
  type Row = seq<Cell>
  type Table = seq<Row>
  /** The tables found on one page. */
  type Page = seq<Table>

  /** One extracted record, the dictionary {"course": ..., "credits": ...}. */
  datatype Scraped = Scraped(course: string, credits: real)

  // ---------------------------------------------------------------------------
  // Cleaning and classifying one row

  /** `cell.strip() if cell else ""`. */
  function CleanCell(cell: Cell): (r: string)
    ensures cell.None? ==> r == ""
    ensures cell.Some? ==> r == Strip(cell.value)
  {
    if cell.Some? && cell.value != "" then Strip(cell.value) else ""
  }

  /** The row with every cell cleaned. */
  function CleanRow(row: Row): (clean: seq<string>)
    ensures |clean| == |row|
    ensures forall k :: 0 <= k < |row| ==> clean[k] == CleanCell(row[k])
  {
    seq(|row|, k requires 0 <= k < |row| => CleanCell(row[k]))
  }

  /** `not any(clean_row)`: no cleaned cell has text; in particular a row without cells is blank. */
  predicate AllBlank(clean: seq<string>)
    ensures clean == [] ==> AllBlank(clean)
  {
    forall k :: 0 <= k < |clean| ==> clean[k] == ""
  }

  /** The first cell of a header row or of a totals row; it has at least the five letters of either word. */
  predicate IsHeaderOrTotal(first: string)
    ensures IsHeaderOrTotal(first) ==> |first| >= 5
  {
    ContainsBounds(Upper(first), "CODUL");
    ContainsBounds(Upper(first), "TOTAL");
    Contains(Upper(first), "CODUL") || Contains(Upper(first), "TOTAL")
  }

  /** The column holding the credits in a row of `width` cells: 7 in the wide layout, 5 in the narrow one. */
  function CreditsColumn(width: nat): (col: Option<nat>)
    ensures col.Some? <==> width >= 7
    ensures col.Some? ==> col.value < width
    ensures width >= 9 ==> col == Some(7)
    ensures 7 <= width < 9 ==> col == Some(5)
  {
    if width >= 9 then Some(7) else if width >= 7 then Some(5) else None
  }

  /**
   * `name` begins with a course code: one or more digits, optionally a dot
   * and one or more digits, then one or more whitespace characters, matched
   * here in full by `code` (the pattern `^\d+(\.\d+)?\s+`).
   */
  predicate CodeShape(code: string, a: nat, b: nat)
  {
    && 0 < a <= b < |code|
    && AllDigits(code[..a])
    && (b == a || (a + 1 < b && code[a] == '.' && AllDigits(code[a + 1..b])))
    && AllSpace(code[b..])
  }

  ghost predicate IsCodePrefix(code: string)
  {
    exists a: nat, b: nat :: CodeShape(code, a, b)
  }

  /** The length of the course code at the start of `s` that the pattern removes, or 0. */
  function CodePrefixLength(s: string): (n: nat)
    ensures n <= |s|
  {
    var d := SkipDigits(s, 0);
    if d == 0 then 0
    else
      var e := if d + 1 < |s| && s[d] == '.' && IsDigit(s[d + 1]) then SkipDigits(s, d + 1) else d;
      var w := SkipSpaces(s, e);
      if w == e then 0 else w
  }

  /** What `CodePrefixLength` removes is a course code, and all of the whitespace after it. */
  lemma CodePrefixIsCode(s: string)
    requires CodePrefixLength(s) > 0
    ensures IsCodePrefix(s[..CodePrefixLength(s)])
    ensures CodePrefixLength(s) == |s| || !IsSpace(s[CodePrefixLength(s)])
  {
    var w := CodePrefixLength(s);
    var p := s[..w];
    var d := SkipDigits(s, 0);
    var e := if d + 1 < |s| && s[d] == '.' && IsDigit(s[d + 1]) then SkipDigits(s, d + 1) else d;
    assert p[..d] == s[0..d];
    assert p[e..] == s[e..w];
    if e != d {
      assert p[d + 1..e] == s[d + 1..e];
    }
    assert CodeShape(p, d, e);
  }

  /** When `s` begins with a course code, `CodePrefixLength` finds one. */
  lemma CodePrefixFound(s: string, k: nat)
    requires k <= |s| && IsCodePrefix(s[..k])
    ensures CodePrefixLength(s) > 0
  {
    var p := s[..k];
    var a: nat, b: nat :| CodeShape(p, a, b);
    forall i | 0 <= i < a
      ensures IsDigit(s[i])
    {
      assert p[..a][i] == s[i];
    }
    assert IsSpace(s[b]) by { assert p[b..][0] == s[b]; }
    SkipDigitsTo(s, 0, a);
    if b == a {
      assert SkipSpaces(s, a) > a;
    } else {
      assert s[a] == '.' && IsDigit(s[a + 1]) by {
        assert p[a + 1..b][0] == s[a + 1];
      }
      forall i | a + 1 <= i < b
        ensures IsDigit(s[i])
      {
        assert p[a + 1..b][i - (a + 1)] == s[i];
      }
      SkipDigitsTo(s, a + 1, b);
      assert SkipSpaces(s, b) > b;
    }
  }

  /**
   * `re.sub(r"^\d+(\.\d+)?\s+", "", name)`: the name without its leading
   * course code. The result is a suffix of `name`; it is shorter exactly when
   * `name` begins with a course code, and then what was removed is such a
   * code together with all the whitespace that followed it.
   */
  function StripCourseCode(name: string): (r: string)
    ensures |r| <= |name| && r == name[|name| - |r|..]
    ensures |r| < |name| ==> IsCodePrefix(name[..|name| - |r|]) && (r == "" || !IsSpace(r[0]))
    ensures |r| < |name| <==> exists k :: 0 < k <= |name| && IsCodePrefix(name[..k])
  {
    var n := CodePrefixLength(name);
    assert n > 0 ==> IsCodePrefix(name[..n]) && (n == |name| || !IsSpace(name[n])) by {
      if n > 0 { CodePrefixIsCode(name); }
    }
    assert (exists k :: 0 < k <= |name| && IsCodePrefix(name[..k])) ==> n > 0 by {
      forall k | 0 < k <= |name| && IsCodePrefix(name[..k]) ensures n > 0 {
        CodePrefixFound(name, k);
      }
    }
    name[n..]
  }

  /** A name that does not begin with a digit is kept as it is. */
  lemma NameWithoutCodeKept(name: string)
    requires name == "" || !IsDigit(name[0])
    ensures StripCourseCode(name) == name
  {
    assert name[0..] == name;
  }

  /**
   * The record one table row yields, if any: rows whose cells are all
   * empty, header rows and totals rows, rows of fewer than 7 cells and rows
   * whose credits cell does not parse yield none.
   */
  function RowRecord(row: Row, parseReal: string -> Option<real>): (r: Option<Scraped>)
    ensures r.Some? ==> |row| >= 7 && !AllBlank(CleanRow(row)) && !IsHeaderOrTotal(CleanCell(row[0]))
    ensures r.Some? ==> r.value.course == StripCourseCode(CleanCell(row[0]))
    ensures r.Some? ==> parseReal(CleanCell(row[CreditsColumn(|row|).value])) == Some(r.value.credits)
  {
    var clean := CleanRow(row);
    if AllBlank(clean) then None
    else if IsHeaderOrTotal(clean[0]) then None
    else
      match CreditsColumn(|clean|)
      case None => None
      case Some(col) =>
        match parseReal(clean[col])
        case None => None
        case Some(credits) => Some(Scraped(StripCourseCode(clean[0]), credits))
  }

  /** A row whose cells are all missing or whitespace yields no record. */
  lemma BlankRowSkipped(row: Row, parseReal: string -> Option<real>)
    requires forall k :: 0 <= k < |row| ==> row[k].None? || AllSpace(row[k].value)
    ensures RowRecord(row, parseReal) == None
  {
    var clean := CleanRow(row);
    forall k | 0 <= k < |row| ensures clean[k] == "" {
      if row[k].Some? {
        StripAllSpace(row[k].value);
      }
    }
  }

  /** A row whose first cell, upper-cased, contains "CODUL" or "TOTAL" yields no record. */
  lemma HeaderRowSkipped(row: Row, parseReal: string -> Option<real>)
    requires |row| > 0 && IsHeaderOrTotal(CleanCell(row[0]))
    ensures RowRecord(row, parseReal) == None
  {
  }

  /** A row of fewer than 7 cells yields no record. */
  lemma ShortRowSkipped(row: Row, parseReal: string -> Option<real>)
    requires |row| < 7
    ensures RowRecord(row, parseReal) == None
  {
  }

  /**
   * A row of 9 or more cells yields a record exactly when it is not blank,
   * not a header or totals row and its cell 7 parses; the record holds
   * cell 0 without its course code, and the number in cell 7.
   */
  lemma WideRowColumns(row: Row, parseReal: string -> Option<real>)
    requires |row| >= 9
    ensures RowRecord(row, parseReal).Some? <==>
      !AllBlank(CleanRow(row)) && !IsHeaderOrTotal(CleanCell(row[0])) && parseReal(CleanCell(row[7])).Some?
    ensures RowRecord(row, parseReal).Some? ==>
      RowRecord(row, parseReal).value == Scraped(StripCourseCode(CleanCell(row[0])), parseReal(CleanCell(row[7])).value)
  {
  }

  /**
   * A row of 7 or 8 cells yields a record exactly when it is not blank,
   * not a header or totals row and its cell 5 parses; the record holds
   * cell 0 without its course code, and the number in cell 5.
   */
  lemma NarrowRowColumns(row: Row, parseReal: string -> Option<real>)
    requires 7 <= |row| < 9
    ensures RowRecord(row, parseReal).Some? <==>
      !AllBlank(CleanRow(row)) && !IsHeaderOrTotal(CleanCell(row[0])) && parseReal(CleanCell(row[5])).Some?
    ensures RowRecord(row, parseReal).Some? ==>
      RowRecord(row, parseReal).value == Scraped(StripCourseCode(CleanCell(row[0])), parseReal(CleanCell(row[5])).value)
  {
  }

  // ---------------------------------------------------------------------------
  // Extracting the records of whole tables and pages

  /** `RowRecord` with the credits parser fixed: the function the row loop applies to each row. */
  function RowParser(parseReal: string -> Option<real>): (f: Row -> Option<Scraped>)
    ensures forall row :: f(row) == RowRecord(row, parseReal)
  {
    row => RowRecord(row, parseReal)
  }

  /** The records of a sequence of rows: one per accepted row, in row order. */
  function ExtractRows(rows: seq<Row>, parseReal: string -> Option<real>): (records: seq<Scraped>)
    ensures |records| <= |rows|
  {
    FilterMapLength(rows, RowParser(parseReal));
    FilterMap(rows, RowParser(parseReal))
  }

  /** The records of a sequence of tables, table after table. */
  function ExtractTables(tables: seq<Table>, parseReal: string -> Option<real>): (records: seq<Scraped>)
    ensures |records| <= |TableRows(tables)|
  {
    if tables == [] then []
    else ExtractTables(tables[..|tables| - 1], parseReal) + ExtractRows(tables[|tables| - 1], parseReal)
  }

  /** The records of a sequence of pages, page after page. */
  function ExtractPages(pages: seq<Page>, parseReal: string -> Option<real>): (records: seq<Scraped>)
    ensures |records| <= |PageRows(pages)|
  {
    if pages == [] then []
    else ExtractPages(pages[..|pages| - 1], parseReal) + ExtractTables(pages[|pages| - 1], parseReal)
  }

  /** The rows of all tables, in table order. */
  function TableRows(tables: seq<Table>): seq<Row>
  {
    if tables == [] then [] else TableRows(tables[..|tables| - 1]) + tables[|tables| - 1]
  }

  /** The rows of all tables of all pages, in page order and then table order. */
  function PageRows(pages: seq<Page>): seq<Row>
  {
    if pages == [] then [] else PageRows(pages[..|pages| - 1]) + TableRows(pages[|pages| - 1])
  }

  /** Extracting from two runs of rows one after the other concatenates their records. */
  lemma ExtractRowsConcat(a: seq<Row>, b: seq<Row>, parseReal: string -> Option<real>)
    ensures ExtractRows(a + b, parseReal) == ExtractRows(a, parseReal) + ExtractRows(b, parseReal)
  {
    FilterMapConcat(a, b, RowParser(parseReal));
  }

  /** The records of the tables are the records of their rows taken in table order. */
  lemma {:induction false} ExtractTablesByRows(tables: seq<Table>, parseReal: string -> Option<real>)
    ensures ExtractTables(tables, parseReal) == ExtractRows(TableRows(tables), parseReal)
  {
    if tables != [] {
      var init := tables[..|tables| - 1];
      ExtractTablesByRows(init, parseReal);
      ExtractRowsConcat(TableRows(init), tables[|tables| - 1], parseReal);
    }
  }

  /** The records of the pages are the records of all their rows, in page, table and row order. */
  lemma {:induction false} ExtractPagesByRows(pages: seq<Page>, parseReal: string -> Option<real>)
    ensures ExtractPages(pages, parseReal) == ExtractRows(PageRows(pages), parseReal)
  {
    if pages != [] {
      var init := pages[..|pages| - 1];
      ExtractPagesByRows(init, parseReal);
      ExtractTablesByRows(pages[|pages| - 1], parseReal);
      ExtractRowsConcat(PageRows(init), TableRows(pages[|pages| - 1]), parseReal);
    }
  }

  /** Extracting from one more row of `rows` adds that row's record, if any, at the end. */
  lemma ExtractRowsStep(rows: seq<Row>, n: nat, parseReal: string -> Option<real>)
    requires n < |rows|
    ensures ExtractRows(rows[..n + 1], parseReal) == ExtractRows(rows[..n], parseReal) + Elements(RowRecord(rows[n], parseReal))
  {
    FilterMapStep(rows, n, RowParser(parseReal));
  }

  /** Extracting from one more table of `tables` adds that table's records at the end. */
  lemma ExtractTablesStep(tables: seq<Table>, n: nat, parseReal: string -> Option<real>)
    requires n < |tables|
    ensures ExtractTables(tables[..n + 1], parseReal) == ExtractTables(tables[..n], parseReal) + ExtractRows(tables[n], parseReal)
  {
    assert tables[..n + 1][..n] == tables[..n];
  }

  /** Extracting from one more page of `pages` adds that page's records at the end. */
  lemma ExtractPagesStep(pages: seq<Page>, n: nat, parseReal: string -> Option<real>)
    requires n < |pages|
    ensures ExtractPages(pages[..n + 1], parseReal) == ExtractPages(pages[..n], parseReal) + ExtractTables(pages[n], parseReal)
  {
    assert pages[..n + 1][..n] == pages[..n];
  }

  /** Every extracted record comes from a row that yields it. */
  lemma ExtractRowsSound(rows: seq<Row>, parseReal: string -> Option<real>, rec: Scraped)
    requires rec in ExtractRows(rows, parseReal)
    ensures exists i :: 0 <= i < |rows| && RowRecord(rows[i], parseReal) == Some(rec)
  {
    FilterMapSound(rows, RowParser(parseReal), rec);
  }

  /** Every row that yields a record contributes it to the extraction. */
  lemma ExtractRowsComplete(rows: seq<Row>, parseReal: string -> Option<real>, i: nat)
    requires i < |rows| && RowRecord(rows[i], parseReal).Some?
    ensures RowRecord(rows[i], parseReal).value in ExtractRows(rows, parseReal)
  {
    FilterMapComplete(rows, RowParser(parseReal), i);
  }

  /** The rows that yield a record. */
  function AcceptedBy(parseReal: string -> Option<real>): (accepts: Row -> bool)
    ensures forall row :: accepts(row) <==> RowRecord(row, parseReal).Some?
  {
    row => RowRecord(row, parseReal).Some?
  }

  /** Exactly one record per accepted row, even when two rows yield equal records. */
  lemma ExtractRowsCount(rows: seq<Row>, parseReal: string -> Option<real>)
    ensures |ExtractRows(rows, parseReal)| == |Filter(rows, AcceptedBy(parseReal))|
  {
    FilterMapCount(rows, RowParser(parseReal), AcceptedBy(parseReal));
  }

  // ---------------------------------------------------------------------------
  // The spider

  /** The curriculum file name part for each specialization. */
  const SpecMap: map<string, string> :=
    map["CTI" := "Calcro", "CTI_EN" := "Caleng(eng)", "AU" := "AIA_RO", "AU_EN" := "AIA_EN(eng)"]

  /** Why no request was made; each is logged by the spider. */
  datatype RequestError = InvalidSpecialization | YearNotInteger | YearOutOfRange

  /** The request for the curriculum PDF, by its address before percent-encoding. */
  datatype Request = Request(url: string)

  /** The folder of the curriculum PDFs. */
  const PlansFolder: string := "https://ac.utcluj.ro/files/Acasa/Site/documente/planuri_invatamant/"

  /**
   * The address of the curriculum PDF of one study year (1 to 4) and
   * specialization: in the plans folder, under the academic year, a file
   * whose name is the year digit, "_L_", the specialization's part and
   * "_", and that ends in ".pdf".
   */
  function PdfUrl(academicYear: string, year: int, specValue: string): (url: string)
    requires 1 <= year <= 4
    ensures |url| > |PlansFolder| + |academicYear| + 1 && url[..|PlansFolder|] == PlansFolder
    ensures url[|PlansFolder|..|PlansFolder| + |academicYear|] == academicYear
    ensures url[|PlansFolder| + |academicYear| + 1] == "1234"[year - 1]
    ensures OccursAt(url, "_L_" + specValue + "_", |PlansFolder| + |academicYear| + 2)
    ensures url[|url| - 4..] == ".pdf"
  {
    PlansFolder
      + academicYear + "/" + [('0' as int + year) as char] + "_L_" + specValue + "_" + academicYear + ".pdf"
  }

  class CurriculumSpider {
    const studyYear: string
    const specialization: string
    const academicYear: string

    /** The study year is kept stripped, the specialization stripped and upper-cased. */
    constructor (studyYear: string, specialization: string)
      ensures this.studyYear == Strip(studyYear)
      ensures this.specialization == Upper(Strip(specialization))
      ensures academicYear == "2024-2025"
    {
      this.studyYear := Strip(studyYear);
      this.specialization := Upper(Strip(specialization));
      academicYear := "2024-2025";
    }

    /**
     * `start_requests`: the request for the curriculum PDF, made only for a
     * known specialization and a study year that parses as an integer from
     * 1 to 4; the checks run in that order and the first that fails decides
     * the error.
     */
    method StartRequests(parseInt: string -> Option<int>) returns (r: Result<Request, RequestError>)
      ensures specialization !in SpecMap ==> r == Failure(InvalidSpecialization)
      ensures specialization in SpecMap && parseInt(studyYear).None? ==> r == Failure(YearNotInteger)
      ensures specialization in SpecMap && parseInt(studyYear).Some? && !(1 <= parseInt(studyYear).value <= 4)
        ==> r == Failure(YearOutOfRange)
      ensures r.Success? <==>
        specialization in SpecMap && parseInt(studyYear).Some? && 1 <= parseInt(studyYear).value <= 4
      ensures r.Success? ==>
        r.value.url == PdfUrl(academicYear, parseInt(studyYear).value, SpecMap[specialization])
    {
      if specialization !in SpecMap {
        return Failure(InvalidSpecialization);
      }
      var parsed := parseInt(studyYear);
      if parsed.None? {
        return Failure(YearNotInteger);
      }
      var yearInt := parsed.value;
      if yearInt < 1 || yearInt > 4 {
        return Failure(YearOutOfRange);
      }
      var specValue := SpecMap[specialization];
      r := Success(Request(PdfUrl(academicYear, yearInt, specValue)));
    }

    /**
     * The body of the row loop of `parse_pdf`: the record one row yields,
     * where each early `None` is a `continue` of the loop.
     */
    method ParseRow(row: Row, parseReal: string -> Option<real>) returns (record: Option<Scraped>)
      ensures record == RowRecord(row, parseReal)
    {
      var cleanRow := CleanRow(row);
      if AllBlank(cleanRow) {
        return None;
      }
      if IsHeaderOrTotal(cleanRow[0]) {
        return None;
      }
      var courseInfo: string, creditsText: string;
      if |cleanRow| >= 9 {
        courseInfo, creditsText := cleanRow[0], cleanRow[7];
      } else if |cleanRow| >= 7 {
        courseInfo, creditsText := cleanRow[0], cleanRow[5];
      } else {
        return None;
      }
      var creditsVal := parseReal(creditsText);
      if creditsVal.None? {
        return None;
      }
      var courseName := StripCourseCode(courseInfo);
      record := Some(Scraped(courseName, creditsVal.value));
    }

    /** The row loop of `parse_pdf` over one table: the records of its accepted rows, in row order. */
    method ParseTable(table: Table, parseReal: string -> Option<real>) returns (records: seq<Scraped>)
      ensures records == ExtractRows(table, parseReal)
    {
      records := [];
      for r := 0 to |table|
        invariant records == ExtractRows(table[..r], parseReal)
      {
        ExtractRowsStep(table, r, parseReal);
        var record := ParseRow(table[r], parseReal);
        if record.Some? {
          records := records + [record.value];
        }
      }
      assert table[..|table|] == table;
    }

    /** The table loop of `parse_pdf` over one page: the records of its tables, table after table. */
    method ParsePage(tables: Page, parseReal: string -> Option<real>) returns (records: seq<Scraped>)
      ensures records == ExtractTables(tables, parseReal)
    {
      records := [];
      for t := 0 to |tables|
        invariant records == ExtractTables(tables[..t], parseReal)
      {
        ExtractTablesStep(tables, t, parseReal);
        var tableRecords := ParseTable(tables[t], parseReal);
        records := records + tableRecords;
      }
      assert tables[..|tables|] == tables;
    }

    /**
     * `parse_pdf` on the tables extracted from each page: walks pages,
     * tables and rows in order and collects one record per accepted row.
     */
    method ParsePdf(pages: seq<Page>, parseReal: string -> Option<real>) returns (courses: seq<Scraped>)
      ensures courses == ExtractPages(pages, parseReal)
    {
      courses := [];
      for p := 0 to |pages|
        invariant courses == ExtractPages(pages[..p], parseReal)
      {
        ExtractPagesStep(pages, p, parseReal);
        var pageRecords := ParsePage(pages[p], parseReal);
        courses := courses + pageRecords;
      }
      assert pages[..|pages|] == pages;
    }
  }

  /**
   * `scrape_subjects` turns each record into a course with that name and
   * those credits and no grade, in the same order.
   */
  function ToCourses(records: seq<Scraped>): (courses: seq<Course>)
    ensures |courses| == |records|
    ensures forall k :: 0 <= k < |records| ==>
      courses[k].name == records[k].course && courses[k].credits == records[k].credits && !HasGrade(courses[k])
  {
    seq(|records|, k requires 0 <= k < |records| => NewCourse(records[k].course, records[k].credits))
  }
}
