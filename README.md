# NITH result scraper: a verified model of its core

The scraper fetches students' result pages from the NITH result portal and turns them into structured records. Three parts of `scraper.py` carry logic, and they are what this project models:

- **Roll-number generation.** `generate_roll_numbers(year, dept)` returns the 150 identifiers `"YYDDDnnn"`, with the double quotes included. It is modelled as `RollNumbers.GenerateRollNumbers`. `StripQuotes` models the callers' `roll.strip('"')`.
- **Roll-number validation.** `validate_roll_number` checks for 8 characters, a served year, a known department and a three-digit number from 1 to 150. It is modelled as `RollNumbers.ValidateRollNumber`. It is proved to accept exactly the generated identifiers, quotes stripped, of the served years and known departments.
- **Result-page extraction.** The model of `parse_results` is `Extractor.ParseResults`. It is an imperative method with the source's loop over `tables[2:]` and its inner loop over the rows of a subject table. It is proved to compute `ResultPage.Extract`:
  - `Scan` is a left fold of one step per table, with the state `(semesters, current)`.
  - `Flush` closes the open semester at the end.
  - A validity gate then requires at least one semester.

  `ExtractionProperties` proves what the extraction promises about that function.

Files:

- `wrappers.dfy`: `Option`.
- `text.dfy`: the Python string operations the code relies on. These are `strip()` and `strip(chars)`, `sub in s`, `split(":")[-1]`, `isdigit()`, `int()` and `{i:03d}`, over ASCII.
- `roll_numbers.dfy`: the constants `Years`, `AllDepartments` and `BatchSize`, generation, validation and their lemmas.
- `result_page.dfy`: the page abstraction, the record datatypes and the extraction as functions.
- `extractor.dfy`: the imperative extraction.
- `extraction_properties.dfy`: lemmas about the extraction.

The page abstraction: a `Page` is the response text plus the list of its `<table>` elements. Each `Table` contains:

- the text of its first `<tr class="info">`, if it has one;
- whether it has a `<tr class="thcolor">`;
- its rows, each given as the texts of its `<td>`s;
- its markup, which is searched for the summary style `background-color: #d99900`;
- its `<td>`s, each given as the texts of its `<p>`s;
- the texts of all its `<p>`s, in order.

How the Python code's structure maps to the model:

- `current_sem`, a dict replaced on each header and updated in place, becomes an `Option<Semester>` value. The loop reassigns it.
- `semesters` becomes a `seq<Semester>` that only grows by appending.
- The `try/except` around each table is an early exit. Inside the `try`, only the summary read can raise: `cells[k].find_all("p")[1]` raises when a cell holds fewer than two paragraphs. The header split and the subject rows cannot raise. When the summary read fails, the table's earlier header and subject effects persist, and the pass goes on with the next table.
- The identity lookups become `Option`s, and any one that fails gives "no data".

A subject row is kept whenever it has at least six cells (scraper.py:109). Its first cell is not tested, and `Subjects` does not test it either.

## Model

| member | source | states |
|---|---|---|
| RollNumbers.GenerateRollNumbers | scraper.py:13-15 | the generator returns exactly 150 entries |
| RollNumbers.GeneratedShape | scraper.py:15 | entry i (0-based) is a double quote, the year, the department, a three-digit string whose value is i + 1 and a closing double quote, so the numbers run 1..150 in ascending order |
| RollNumbers.GeneratedDistinct | scraper.py:15 | no two generated entries are equal |
| RollNumbers.StripGenerated | scraper.py:160-166 | for any year and department text that does not begin with a double quote (such as a code typed at the prompt), `strip('"')` of an entry is the bare year + department + zero-padded number |
| RollNumbers.YearShape | scraper.py:257 | every served year is two digits |
| RollNumbers.DepartmentShape | scraper.py:17-19 | every department code is three characters |
| RollNumbers.GeneratedAreValid | scraper.py:251-260 | for every served year and known department, every generated entry with its quotes stripped passes validation |
| RollNumbers.ValidAreGenerated | scraper.py:251-260 | every roll number that passes validation is the quote-stripped generated entry of its own year and department at index (its number - 1) |
| RollNumbers.AcceptsExample | scraper.py:251-260 | `21BCS005` is accepted |
| RollNumbers.RejectsExamples | scraper.py:251-260 | `25BCS005` (year), `21XXX005` (department), `21BCS0A5` (not all digits), `21BCS151` and `21BCS000` (range) and `21BCS05` (length) are rejected |
| Text.StripChars | scraper.py:166 | the stripped string is no longer than the input and neither starts nor ends with a stripped character |
| Text.StripCharsPadded | scraper.py:166 | the input is the result with stripped characters added at its two ends only |
| Text.StripCharsAbsent | scraper.py:99 | stripping introduces no character that was not in the input |
| Text.StripCharsOfStripped | scraper.py:99 | a string without strippable characters at its ends is returned unchanged |
| Text.StripIdempotent | scraper.py:99 | `strip()` applied twice equals `strip()` applied once |
| Text.ContainsAt | scraper.py:122 | the substring test holds exactly when the marker occurs at some position of the markup |
| Text.AfterLastColon | scraper.py:99 | `split(":")[-1]` has no colon, is a suffix of the input preceded by a colon when shorter, and is the whole input when the input has no colon |
| Text.Decimal | scraper.py:15 | `str(n)` is a non-empty digit string whose value is n and that has no leading zero unless n = 0 |
| Text.ZeroPad | scraper.py:15 | the `0Nd` format is a digit string whose value is n, of width max(N, digits of n) |
| Text.LeadingZeros | scraper.py:15 | zeros in front of a digit string do not change its value |
| Text.DecimalLength | scraper.py:15 | a number below 1000 has at most three decimal digits |
| Text.DigitsInjective | scraper.py:259-260 | two digit strings of equal length and equal value are equal |
| Text.ThreeDigitsRoundTrip | scraper.py:256-260 | a three-digit string is the three-digit zero-padded format of its own value |
| ResultPage.FindLabel | scraper.py:80-82 | the label search returns the position of the first paragraph containing the label, and fails only when no paragraph contains it |
| ResultPage.LabelValue | scraper.py:80-82 | a field reads exactly when the first paragraph containing its label is not the last one, and its value is then the trimmed text of the next paragraph |
| ResultPage.ReadIdentity | scraper.py:76-86 | the identity block reads exactly when each of ROLL NUMBER, STUDENT NAME and FATHER NAME occurs in some paragraph and its first such paragraph is not the last; each field is then the trimmed text of the paragraph after that first occurrence |
| ResultPage.SemesterLabel | scraper.py:99 | a semester label has no colon and no surrounding whitespace; a header with no colon gives its whole trimmed text |
| ResultPage.Subjects | scraper.py:107-119 | reading rows gives at most one subject per row |
| ResultPage.AppendSubjects | scraper.py:118-119 | appending subject rows keeps whether a semester is open and keeps its name and summary |
| ResultPage.HeaderStep | scraper.py:94-102 | the header step loses and reorders nothing: the closed semesters and the closed-plus-open list only grow at the end; a header adds exactly one semester, empty, without summary and named after the header, and a table without a header adds none |
| ResultPage.SetSummary | scraper.py:121-133 | the summary step keeps whether a semester is open and keeps its name and subjects; when the summary conditions fail, it changes nothing |
| Extractor.ParseResults | scraper.py:64-139 | the imperative pass returns exactly `Extract(page)`; a result always has at least one semester, and its identity is the one read from the second table |
| Extractor.ScanTables | scraper.py:88-133 | the loop over `tables[2:]` ends in exactly the state `Scan(tables[2:])`, the fold of one `ProcessTable` step per table in document order |
| Extractor.ProcessOneTable | scraper.py:91-133 | one iteration of the table loop performs exactly the header, subject and summary steps of `ProcessTable`, in that order |
| Extractor.ReadHeader | scraper.py:94-102 | the header code computes exactly `OpenSemester`, so by `HeaderStep` it adds one empty semester per header and loses nothing |
| Extractor.ReadSummaryInto | scraper.py:121-130 | the summary code computes exactly `SetSummary`: it overwrites the summary only under all of the conditions of scraper.py:122-130 and leaves name and subjects alone |
| Extractor.AppendRows | scraper.py:106-119 | the row loop appends exactly `Subjects(rows)` to the open semester and drops them when none is open |
| ExtractionProperties.NoDataCases | scraper.py:65-86 | an empty response, fewer than two tables, or any of ROLL NUMBER / STUDENT NAME / FATHER NAME not readable in the second table gives no data |
| ExtractionProperties.ScanNames | scraper.py:88-102 | after any sequence of tables, the closed semesters followed by the open one are named after the header tables, one each, in document order; a semester is open exactly when there was a header |
| ExtractionProperties.SemestersFollowHeaders | scraper.py:135-139 | once the identity reads, the result is non-empty exactly when some table after the first two has a header; the semesters then match those headers one to one, in order |
| ExtractionProperties.FirstTwoTablesContributeNoSemester | scraper.py:78-91 | the first table, and everything of the second except its paragraphs, never change the result |
| ExtractionProperties.NamesAppend | scraper.py:96-97 | appending semesters to the list appends their names in the same order, the step by which each `semesters.append` keeps the names in header order |
| ExtractionProperties.SemestersOnlyGrow | scraper.py:96-97 | the closed semesters after a prefix of the tables are a prefix of those after all of them |
| ExtractionProperties.SubjectsAppend | scraper.py:107-119 | reading rows distributes over concatenation, so subjects keep row order |
| ExtractionProperties.SubjectOfRow | scraper.py:109-117 | a row of at least six cells gives exactly its own subject, with each of the six cells trimmed |
| ExtractionProperties.ShortRowDropped | scraper.py:109 | a row of fewer than six cells is dropped and its siblings are unaffected |
| ExtractionProperties.TableWithoutHeader | scraper.py:104-133 | without a header: the closed semesters are unchanged; with no open semester, rows and summary are dropped; otherwise the open semester keeps its name, gains the `thcolor` table's rows after the first, and takes the summary exactly when the marker is present, there are at least 5 cells and cells 1-4 each have two paragraphs, replacing any earlier summary |
| ExtractionProperties.TableWithHeader | scraper.py:94-133 | with a header: the open semester is closed first, and the new one receives this table's own subject rows and summary |
| ExtractionProperties.SemesterLabelExample | scraper.py:99 | the header `Semester : I` gives the label `I` |
| ExtractionProperties.OneSemesterExample | scraper.py:88-139 | identity, a header table `Semester : I`, and a subject table with a heading row and two full rows give one semester `I` with those two subjects in row order and no summary |

## Left out

- `create_session` and `fetch_results` (scraper.py:28-61) are left out. They are HTTP: a urllib3 retry policy with backoff, a 15-second timeout and a random User-Agent. This is network I/O and randomness. A page is given to the model directly.
- The BeautifulSoup parse and its tag searches (scraper.py:69-70, 80-82, 94, 105-108, 122-128) are left out. It is a foreign library. `Table` records what the code asks of each table: the `info` header text, the `thcolor` flag, the rows, the markup, the cells and the paragraphs. The page's text and its tables are independent inputs.
- `find_next("p")` is modelled as the next paragraph of the second table. The library searches forward through the whole document, so a label in the last paragraph of that table could find a paragraph of a later table. The model reports "no data" in that case.
- `string=lambda x: label in str(x)` is modelled as a test on the paragraph's text. The library matches on `.string`, which is `None` for a `<p>` with several children. `str(None)` then contains no label, so such a paragraph is skipped by the library but can match in the model.
- `html_content` of `None` is left out. The model takes a string, and its callers pass only a non-empty response.
- `save_results`, the JSON and CSV writes and `time.sleep` (scraper.py:142-144, 170-178, 223-227, 242-244) are left out. They are file I/O and wall-clock delays.
- The interactive drivers `generate_roll_numbers_and_scrape`, `process_all_batches`, `process_batch` and `process_single_student` (scraper.py:147-249) are left out. They are prompt-driven control flow. This includes their appending of a `None` result to the batch list (scraper.py:169, 222).
- The diagnostics printed on each failure are left out. They are console output.
- Unicode is left out. `strip()` removes only the ASCII part of Python's whitespace: 9-13, 28-31 and the space. `isdigit()` and `int()` accept only '0'-'9'. So a roll number with a non-ASCII character among its last three is not modelled. Python accepts decimal digits of other scripts, such as the Arabic-Indic '٥' or the full-width '５'. So the source accepts `21BCS٠٠٥` and `ValidateRollNumber` rejects it. A digit such as '²' passes `isdigit()` but makes `int()` raise.
- Idempotence of extraction on the same input is not stated as a lemma. `Extract` is a function, so equal inputs give equal results by construction.
