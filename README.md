# UTCN grade calculator: a verified model of its core

The program computes a student's credit-weighted grade average:

- It downloads the curriculum PDF of one study year and specialization.
- It extracts (course name, credits) records from the PDF's tables.
- It lets the student select courses and enter grades.
- It reduces the graded courses to a statistics record: final grade, total credits, and the number of passing, failing and counted courses.

This project models in Dafny the parts of that program that are logic rather than I/O:

- `models.dfy` holds the `Course` record and its predicates `HasGrade`, `IsPassing` and `IsFailing`. Passing means a grade of at least 5.
- `grade_calculator.dfy` holds the aggregation function and the index filter that turns the student's multi-select answer into the selected courses.
  - The aggregation function keeps its historical name, `CalculateWeightedHarmonicMean`. It computes the credit-weighted ARITHMETIC mean `sum(grade * credits) / sum(credits)` over the courses that have a grade and positive credits, rounded to two decimals.
  - No harmonic-mean variant exists in the code, so none is modelled. The program's own wording disagrees with its code: main.py:4 and main.py:11 describe a "weighted harmonic mean" with special handling for failing grades, and ui_handler.py:222 and ui_handler.py:243 print "WEIGHTED HARMONIC MEAN" above the result. The model follows the code.
- `pdf_handler.dfy` holds the curriculum spider (`CurriculumSpider`):
  - its constructor, which normalises its arguments;
  - `StartRequests`, which validates the specialization and study year and builds the PDF address;
  - `ParsePdf`, which walks pages, tables and rows. It cleans each row, skips blank, header and totals rows, picks the credits column by row width, drops rows whose credits do not parse, and strips the leading course code from the name.
  - Each level of the page/table/row walk is its own method (`ParsePdf`, `ParsePage`, `ParseTable`, `ParseRow`).
  - Every method is proved equal to a specification function (`ExtractPages`, `ExtractTables`, `ExtractRows`, `RowRecord`), and the properties of the walk are lemmas about those functions.
- `text.dfy` models the Python string built-ins the scraper relies on (`isspace`, `strip`, `upper`, substring `in`).
- `seqs.dfy` models the list idioms: a list comprehension with `if`, and `sum`.
- `wrappers.dfy` holds `Option` and `Result`.

Two Python built-ins are taken as parameters of the operations that use them, not re-implemented:

- Python's `float()` is `parseReal: string -> Option<real>`, with `None` for a `ValueError`.
- Python's `int()` is `parseInt: string -> Option<int>`.

Grades and credits are exact reals.

## Model

| member | source | states |
|---|---|---|
| Models.NewCourse | models.py:18-20 | a course created with a name and credits has exactly those, has no grade, and is neither passing nor failing |
| Models.GradePartition | models.py:22-47 | a graded course is passing or failing and never both; an ungraded course is neither; having a grade is equivalent to passing or failing |
| Models.HasGrade | models.py:40-47 | holds exactly when a grade has been entered |
| Models.IsPassing | models.py:22-29 | holds exactly when a grade has been entered and it is at least 5; a passing course has a grade |
| Models.IsFailing | models.py:31-38 | holds exactly when a grade has been entered and it is below 5; a failing course has a grade and is not passing |
| Models.PassingThreshold | models.py:22-38 | for a course with grade g: it has a grade, it passes exactly when g >= 5 and it fails exactly when g < 5 |
| Seqs.Filter | grade_calculator.py:42 | a list comprehension with an `if` keeps exactly the elements satisfying the test, each result element satisfies it, and the result is no longer than the input |
| Seqs.FilterPermutation | grade_calculator.py:42-55 | filtering two permutations of one another gives two permutations of one another |
| Seqs.SumPermutation | grade_calculator.py:58-61 | `sum` over two permutations of one another is the same |
| GradeCalculator.ValidCourses | grade_calculator.py:42 | a course is kept exactly when it appears in the input, has a grade and has positive credits |
| GradeCalculator.TotalCredits | grade_calculator.py:58 | the credit sum is 0 for no course and positive for a nonempty list of courses of positive credits |
| GradeCalculator.WeightedGradeSum | grade_calculator.py:61 | the sum of grade times credits is 0 for no course and not negative when no grade and no credit is negative |
| GradeCalculator.WeightedMean | grade_calculator.py:63-66 | with a zero credit total the mean is 0; otherwise the mean times the credit total is the weighted grade sum |
| GradeCalculator.Round2 | grade_calculator.py:69 | `round(x, 2)` is a whole number of hundredths within 0.005 of x, and on a tie has an even number of hundredths |
| GradeCalculator.Round2InRange | grade_calculator.py:69 | rounding a value in [0, 10] stays in [0, 10] |
| GradeCalculator.PassFailCount | grade_calculator.py:54-55 | over graded courses, the passing count plus the failing count equals the number of courses |
| GradeCalculator.CalculateWeightedHarmonicMean | grade_calculator.py:13-74 | total_courses counts the valid courses; passing and failing count the passing and failing valid courses and add up to total_courses; total_credits is the credit sum of the valid courses and is positive whenever a course is counted; final_grade is the rounded credit-weighted mean of the valid courses; the result is the all-zero record exactly when no course is valid |
| GradeCalculator.NoValidCourseGivesZero | grade_calculator.py:32-51 | an empty list, or one where every course is ungraded or has credits <= 0, gives the all-zero record |
| GradeCalculator.SameValidSameStats | grade_calculator.py:42-74 | the result depends only on the valid courses, in order |
| GradeCalculator.ExcludedCourseIgnored | grade_calculator.py:42 | inserting an ungraded course, or one with credits <= 0, anywhere in the input changes no field of the result |
| GradeCalculator.PermutationInvariant | grade_calculator.py:42-73 | reordering the input changes no field of the result |
| GradeCalculator.WeightedSumBounds | grade_calculator.py:58-61 | if every grade is in [lo, hi], the weighted grade sum lies between lo and hi times the credit total |
| GradeCalculator.MeanBounds | grade_calculator.py:61-66 | if every grade of a nonempty list of valid courses is in [lo, hi], the unrounded mean is in [lo, hi] |
| GradeCalculator.MinGrade | grade_calculator.py:61-66 | the lowest grade is at most every grade and is one of the grades |
| GradeCalculator.MaxGrade | grade_calculator.py:61-66 | the highest grade is at least every grade and is one of the grades |
| GradeCalculator.MeanBetweenMinAndMax | grade_calculator.py:61-66 | the unrounded mean lies between the lowest and the highest valid grade |
| GradeCalculator.FinalGradeInRange | grade_calculator.py:61-69 | when every grade is in [0, 10], which the grade prompt enforces, the final grade is in [0, 10] |
| GradeCalculator.ExampleSingleCourse | grade_calculator.py:13-74 | one course of 5 credits graded 8 gives final grade 8, 5 credits, 1 passing, 0 failing, 1 counted |
| GradeCalculator.ExampleTwoCourses | grade_calculator.py:13-74 | courses of 5 credits graded 8 and 4 give final grade 6, 10 credits, 1 passing, 1 failing, 2 counted |
| GradeCalculator.InRange | grade_calculator.py:90 | the kept indices all address an element, and there are no more of them than indices given |
| GradeCalculator.InRangeMultiplicity | grade_calculator.py:88-92 | each in-range index is kept as many times as it was given; an out-of-range index is never kept |
| GradeCalculator.InRangeAppend | grade_calculator.py:89-91 | one more index adds itself at the end of the kept indices exactly when it is in range |
| GradeCalculator.ExampleSelection | grade_calculator.py:88-92 | indices -1, 0 and 100 over three courses keep only index 0 |
| GradeCalculator.FilterSelectedCourses | grade_calculator.py:77-92 | the result is the course at each in-range index, in the order given and with repetitions, and its length is the number of in-range indices |
| Text.Strip | pdf_handler.py:34-35 | `strip()` removes whitespace only, and only at both ends, and the result neither starts nor ends with whitespace |
| Text.StripAllSpace | pdf_handler.py:106 | stripping an all-whitespace string gives the empty string |
| Text.Contains | pdf_handler.py:111-112 | `sub in s` holds exactly when `sub` occurs in `s` at some position |
| Text.ContainsBounds | pdf_handler.py:111-112 | the empty string occurs in every string, and a string occurs only in a string at least as long |
| Text.Upper | pdf_handler.py:35 | `upper()` keeps the length, maps each ASCII lower-case letter to its upper case and keeps every other character, so no lower-case ASCII letter is left |
| PdfHandler.CleanCell | pdf_handler.py:106 | a missing cell becomes the empty string, a present one its stripped text |
| PdfHandler.CleanRow | pdf_handler.py:106 | the cleaned row has one cleaned cell per cell, in order |
| PdfHandler.AllBlank | pdf_handler.py:107 | no cleaned cell has text; a row without cells counts as blank, as `any([])` is false |
| PdfHandler.IsHeaderOrTotal | pdf_handler.py:111-114 | the upper-cased first cell contains "CODUL" or "TOTAL", so the cell has at least five characters |
| PdfHandler.CreditsColumn | pdf_handler.py:120-133 | the credits are in column 7 of a row of at least 9 cells, in column 5 of a row of 7 or 8 cells, and a shorter row has no credits column |
| PdfHandler.StripCourseCode | pdf_handler.py:144 | the result is a suffix of the name; it is shorter exactly when the name begins with a course code (digits, optionally a dot and digits, then whitespace); what is removed is such a code with all the whitespace after it |
| PdfHandler.CodePrefixIsCode | pdf_handler.py:144 | what the code-prefix scan removes matches the pattern and is followed by a non-space |
| PdfHandler.CodePrefixFound | pdf_handler.py:144 | a name that begins with a course code has a nonempty code prefix removed |
| PdfHandler.NameWithoutCodeKept | pdf_handler.py:144 | a name that does not begin with a digit is kept unchanged |
| PdfHandler.RowRecord | pdf_handler.py:105-147 | a row yields a record only when it has at least 7 cells, is not blank and is not a header or totals row; the record's name is cell 0 without its course code and its credits are what the credits column parses to |
| PdfHandler.BlankRowSkipped | pdf_handler.py:106-108 | a row whose cells are all missing or whitespace yields no record |
| PdfHandler.HeaderRowSkipped | pdf_handler.py:111-114 | a row whose upper-cased first cell contains "CODUL" or "TOTAL" yields no record |
| PdfHandler.ShortRowSkipped | pdf_handler.py:132-133 | a row of fewer than 7 cells yields no record |
| PdfHandler.WideRowColumns | pdf_handler.py:120-147 | a row of at least 9 cells yields a record exactly when it is not blank, not a header or totals row, and its cell 7 parses; the record is cell 0 without its code, with the number in cell 7 |
| PdfHandler.NarrowRowColumns | pdf_handler.py:126-147 | a row of 7 or 8 cells yields a record exactly when it is not blank, not a header or totals row, and its cell 5 parses; the record is cell 0 without its code, with the number in cell 5 |
| PdfHandler.ExtractRows | pdf_handler.py:104-147 | the records of a run of rows, one per accepted row in row order, are at most as many as the rows |
| PdfHandler.ExtractTables | pdf_handler.py:103-147 | the records of a page's tables, table after table, are at most as many as the tables' rows |
| PdfHandler.ExtractPages | pdf_handler.py:98-147 | the records of all pages, page after page, are at most as many as the pages' rows |
| PdfHandler.ExtractRowsConcat | pdf_handler.py:104-147 | extracting from two runs of rows one after the other concatenates their records |
| PdfHandler.ExtractTablesByRows | pdf_handler.py:103-147 | the records of a page's tables are the records of all their rows, in table order and then row order |
| PdfHandler.ExtractPagesByRows | pdf_handler.py:98-147 | the records of the document are the records of all rows, in page, table and row order |
| PdfHandler.ExtractRowsSound | pdf_handler.py:104-147 | every extracted record is the record of some row |
| PdfHandler.ExtractRowsComplete | pdf_handler.py:104-147 | the record of every accepted row is extracted |
| PdfHandler.ExtractRowsCount | pdf_handler.py:104-147 | there are exactly as many records as accepted rows, even when two rows yield equal records |
| PdfHandler.PdfUrl | pdf_handler.py:65-69 | the address lies in the plans folder, under the academic year; the file name is the year digit, "_L_", the specialization's part and "_", and ends in ".pdf" |
| PdfHandler.CurriculumSpider.constructor | pdf_handler.py:26-37 | the study year is stored stripped, the specialization stripped and upper-cased, and the academic year is "2024-2025" |
| PdfHandler.CurriculumSpider.StartRequests | pdf_handler.py:39-69 | an unknown specialization, a study year that is not an integer, and one outside 1..4 each give their own error, checked in that order; a request is made exactly when all three checks pass, and its address is built from the academic year, the study year and the specialization's file name part |
| PdfHandler.CurriculumSpider.ParseRow | pdf_handler.py:105-147 | one row's early `continue`s and final append give that row's record as `RowRecord` defines it |
| PdfHandler.CurriculumSpider.ParseTable | pdf_handler.py:104-147 | the row loop returns the records of the table's accepted rows, in row order |
| PdfHandler.CurriculumSpider.ParsePage | pdf_handler.py:103-147 | the table loop returns the records of the page's tables, table after table |
| PdfHandler.CurriculumSpider.ParsePdf | pdf_handler.py:85-155 | the page loop returns the records of all pages, page after page |
| PdfHandler.ToCourses | pdf_handler.py:186-189 | each record becomes a course with that name and those credits and no grade, in the same order |

## Left out

- Network and PDF I/O: the scrapy request and crawler process, `pdfplumber.open` and `extract_tables`, the request headers, and logging. The model starts from the tables the extractor returns, as pages of tables of rows of optional cell texts, and ends with the list of records.
- Percent-encoding of the PDF address by `quote`: `StartRequests` returns the address before encoding.
- The module-global `_scraped_courses` accumulator and its reset in `scrape_subjects`: `ParsePdf` returns the records, and `ToCourses` turns them into courses.
- An exception raised by the PDF library part-way through a document: the source then keeps the records found so far. The model has no such failure, because the row logic itself raises nothing but the `ValueError` of `float()`, which is modelled.
- Python's `float()` and `int()` parsing (including `inf`, `nan`, underscores and surrounding whitespace): they are the parameters `parseReal` and `parseInt`. A `float()` result of infinity or NaN has no counterpart among the reals.
- GradeCalculator.Round2: rounds exact reals half-to-even. Python's `round` acts on the binary float nearest to the value, so near a tie the two can differ by one hundredth.
- GradeCalculator.CalculateWeightedHarmonicMean: sums are exact real sums, not binary floating-point sums with their rounding errors.
- Text.Upper: maps only the ASCII letters and keeps the length. Python's `str.upper()` also maps other letters, some of them to ASCII letters (the dotless `ı` to `I`) and some to several characters (`ß` to `SS`). The upper-cased text is used twice: to test whether a row's first cell contains "CODUL" or "TOTAL", and to normalise the specialization (see the next line).
- PdfHandler.CurriculumSpider.constructor: a specialization with non-ASCII letters that Python upper-cases into one of the four codes (" ctı_en " becomes "CTI_EN") is accepted by the program and rejected by the model with `InvalidSpecialization`. The program's own prompt passes only the four ASCII codes (ui_handler.py:63-85).
- PdfHandler.StripCourseCode: `\d` is taken as the ASCII digits. Python's `\d` on `str` patterns also matches other Unicode decimal digits. `\s` is modelled in full as Python's whitespace set.
- The interactive prompts and console output of ui_handler.py, and main.py. The only part used is ui_handler.py's check that grades lie in [0, 10]; it appears as the precondition of `GradeCalculator.FinalGradeInRange`.
- `Course.__str__` and `Course.display_name`: they depend on Python's float-to-string formatting.
