# Document converter core, modelled in Dafny

This project models the core of `tools/doc_converter.py`, the
`DocumentConverter` that turns office documents into Markdown files with a
YAML-style frontmatter. It covers:

- `convert_file`: the existence check, which comes first. Then the lower-cased
  suffix is looked up in the ten-entry format table, where `.htm` is not a key.
  Then the output file is named `<output_name>.md` or `<stem>.md`. The result
  record carries both paths, the conversion time and the file size.
- `_add_frontmatter`: an opening `---`, one `key: value` line per metadata
  entry in order, then `converted_date`, `status: converted`,
  `needs_review: true` and a closing `---`. Each header line ends with a
  newline, and the body follows unchanged.
- `_docx_to_markdown`:
  - a blank line for an empty paragraph;
  - a `#`…`######` heading for the first `heading k` the lower-cased style
    name contains;
  - otherwise the stripped text.
  - Tables follow, after every paragraph: a blank line, the header row, a
    `---` separator with one cell per header cell, each further row, and a
    blank line. A table without rows raises python-docx's `IndexError`.
- `_extract_docx_metadata`: without python-docx, only `file_type`. When the
  properties can be read, seven candidate entries with the `None` ones
  removed; `title` falls back to the file's stem. When they cannot be read,
  `file_type` and `title`.
- `_convert_docx`: the missing-library error, the `Failed to convert DOCX:`
  wrapping, and frontmatter plus body. mammoth's output is an input here.
- The page loop of `_convert_pdf`:
  - a `## Page <n>` section for each page whose extracted text is non-empty,
    numbered by the page's position;
  - the placeholder text when the result is blank, which happens exactly when
    no page has text;
  - the three-entry metadata. As written, its `extracted_text` is always
    `True`, because it is computed after the placeholder has been put in.
- `convert_directory`: every listed path that is a file with a supported
  suffix is converted. A handler failure becomes a `failed` record and does
  not stop the run.
- `main`: a single file, a directory with its success and failure counts, or
  any other path; and the exit status of each.

The model uses pure functions over immutable data, with these stand-ins:

- The file system, the parsing libraries and the clock are parameters.
  - Whether the file exists is a boolean.
  - The paragraphs and tables python-docx reads, and the per-page text a PDF
    library extracts, are sequences.
  - What a handler does with a file is a `Result`.
  - `datetime.now().isoformat()` is a string.
- `json.dumps` is an arbitrary function `quote`.
- `str.strip`, `str.lower`, `Path.suffix`, `Path.stem`, `str.join` and the
  decimal rendering of integers are defined in `Strings` and `Paths`.

Two details of the code matter for the results:

- A `.md` input is copied verbatim, with no frontmatter.
- A Word table of two rows gives one header and exactly one data row: the
  first row is always the header.

## Model

| member | source | states |
|---|---|---|
| Strings.StripSpec | tools/doc_converter.py:403 | `strip()` removes only whitespace, and only from the two ends. What remains neither starts nor ends with whitespace, and it is empty exactly when the text is all whitespace. |
| Strings.SplitJoin | tools/doc_converter.py:442 | Lines joined by newlines, none of which contains a newline, split back into exactly those lines. |
| Strings.ParseNatToString | tools/doc_converter.py:233 | The decimal rendering of a page number reads back as that number. |
| Paths.StemSuffixSplit | tools/doc_converter.py:81 | Stem and suffix give the name back. The suffix is empty or a dot followed by dot-free text, and a non-empty suffix leaves a non-empty stem. |
| Dispatch.HandlerFor | tools/doc_converter.py:59-72 | An extension is found exactly when it is one of the ten keys. The handler found is registered under that extension. |
| Dispatch.HandlerUnique | tools/doc_converter.py:59-72 | No extension is registered for two different handlers, and every registered extension maps to its handler. |
| Dispatch.Plan | tools/doc_converter.py:78-90 | A missing file fails with `File not found` before the suffix is looked at. An existing file is accepted exactly when its lower-cased suffix is supported, and otherwise fails with that suffix. An accepted file gets the handler registered for the suffix, and the output path. |
| Dispatch.OutputNaming | tools/doc_converter.py:87-90 | The output lies in the output directory and has suffix `.md`. Its stem is the non-empty given name, or else the input's stem. |
| Dispatch.ConvertFile | tools/doc_converter.py:74-106 | Succeeds exactly when the file exists, its suffix is supported and its handler succeeds. Each failure reports the first check that failed. A success is the handler's summary plus both paths, the time and the size, with status `success`. |
| Frontmatter.HeaderLines | tools/doc_converter.py:504-520 | The header has one line per entry plus five. It is delimited by `---` on both ends, has the entry lines in metadata order, and ends with the fixed trailer. |
| Frontmatter.AddFrontmatter | tools/doc_converter.py:502-522 | The output is every header line ended by a newline, followed by the body. It starts with `---` and a newline, and the body is an exact suffix. |
| Frontmatter.HeaderSplitsIntoLines | tools/doc_converter.py:502-522 | When no entry line and not the timestamp contain a newline, the header splits back into exactly its lines. |
| Docx.HeadingLevel | tools/doc_converter.py:408-422 | A level is chosen exactly when the lower-cased style contains some `heading k` with k in 1..6. The level is the smallest such k. |
| Docx.ParagraphLineMeaning | tools/doc_converter.py:402-424 | A blank paragraph gives an empty line. A heading paragraph gives a line that reads back as its level and the stripped text. Any other paragraph gives the stripped text. |
| Docx.TableLines | tools/doc_converter.py:427-440 | A table fails with `IndexError` exactly when it has no rows. Otherwise it takes rows+3 lines: a blank line, the header row, the separator sized to the header, the other rows in order, and a blank line. |
| Docx.TableColumns | tools/doc_converter.py:431-433 | When no header cell contains a pipe, the header line and the separator line have the same number of pipes: one more than the header has cells. A header without cells gives `|  |` for both lines. |
| Docx.TablesLines | tools/doc_converter.py:427-440 | The tables succeed exactly when every table has rows, and they take the sum of their line counts. |
| Docx.TablesLinesOne | tools/doc_converter.py:427-440 | One table contributes exactly its own lines, or its error. |
| Docx.TablesLinesConcat | tools/doc_converter.py:427-440 | The tables are rendered in document order: the lines of two runs of tables are those of the first run followed by those of the second, and both runs must have rows. |
| Docx.DocxToMarkdown | tools/doc_converter.py:398-442 | The body fails with `IndexError` exactly when some table has no rows. |
| Docx.DocxBodyLines | tools/doc_converter.py:398-442 | When no text contains a newline, the body splits into one line per paragraph, in order, followed by the lines of every table. |
| Docx.ScopeExample | tools/doc_converter.py:398-442 | A `Heading 1` paragraph `Scope` and a two-by-two table give `# Scope`, a blank line, the header, the separator, the one data row and a blank line. |
| Docx.DropNullMembers | tools/doc_converter.py:497 | The filter keeps exactly the entries whose value is not `None`, and it keeps keys distinct. |
| Docx.DropNullConcat | tools/doc_converter.py:497 | The filter works entry by entry, so the kept entries keep their insertion order. |
| Docx.DropNullKeepsOrder | tools/doc_converter.py:486-497 | Entries in the fixed key order stay in that order after the `None` values are dropped. |
| Docx.ExtractDocxMetadata | tools/doc_converter.py:477-500 | Without python-docx the result is `file_type: document` alone. An unreadable file gives `file_type` and the stem as `title`. A readable one starts with `file_type` and the title, or the stem when the title is empty. No `None` value remains, and the keys come in the fixed order `file_type`, `title`, `author`, `subject`, `created`, `modified`, `last_modified_by`. |
| Docx.DocxMetadataFields | tools/doc_converter.py:486-497 | Each key maps to its property exactly when that property is set. `title` falls back to the stem, and `file_type` is `document`. |
| Docx.ConvertDocx | tools/doc_converter.py:133-165 | Without python-docx it fails with the install message, unwrapped. A table without rows fails with the wrapped `IndexError`. Otherwise the output is the frontmatter of the extracted metadata followed by the body. |
| Pdf.TextPagesSound | tools/doc_converter.py:230-244 | Every listed page has non-empty text, under its own page number and with its own text. |
| Pdf.TextPagesOrdered | tools/doc_converter.py:230-244 | The pages with text are listed in increasing page order. |
| Pdf.TextPagesComplete | tools/doc_converter.py:230-244 | Every page with non-empty text is listed. |
| Pdf.ExtractPagesText | tools/doc_converter.py:230-244 | The accumulating loop produces the concatenated sections of exactly the pages with text, each under its position-based number. |
| Pdf.PagesTextBlank | tools/doc_converter.py:248-254 | The page text is blank exactly when it is empty, which is exactly when no page has text. |
| Pdf.ConvertPdf | tools/doc_converter.py:220-270 | Fails with the wrapped message when no library is available or the library raises. Otherwise the body is the placeholder exactly when no page has text, and the page sections otherwise. The metadata is `pdf`, the page count and `True`, and the pages processed equal the page count. |
| Batch.AttemptedComplete | tools/doc_converter.py:118-119 | Every listed file with a supported suffix is converted. |
| Batch.AttemptedConcat | tools/doc_converter.py:118-119 | Selecting the files to convert works file by file, in listing order. |
| Batch.AttemptMeaning | tools/doc_converter.py:120-129 | A file's record names its path. It fails exactly when its handler raised, and then carries the handler's message. |
| Batch.BatchConcat | tools/doc_converter.py:118-131 | The records of two listings processed one after the other are the records of each listing alone. A failure never changes or drops another file's record. |
| Batch.ConvertDirectory | tools/doc_converter.py:108-131 | The loop returns one record per eligible file, in listing order. Each record names its file and fails exactly when that file's handler raised. |
| Batch.BatchResultsMeaning | tools/doc_converter.py:118-129 | The k-th record names the k-th eligible file, and it is failed exactly when that file's handler raised. |
| Batch.CountsPartition | tools/doc_converter.py:553-557 | The success and failure counts add up to the number of records. |
| Batch.BatchCounts | tools/doc_converter.py:553-557 | The failure count is the number of converted files whose handler raised, and the rest count as successes. |
| Batch.FailedRecords | tools/doc_converter.py:554-562 | The failed files listed are as many as the failure count. |
| Batch.FailedRecordsMembers | tools/doc_converter.py:554 | Every listed record is a failed record of the run, and every failed record of the run is listed. |
| Batch.FailedRecordsConcat | tools/doc_converter.py:554 | The failed records are picked in order: those of two runs of records are those of the first run followed by those of the second. |
| Batch.FailedRecordsOne | tools/doc_converter.py:554 | A single record is listed exactly when it failed. |
| Batch.RunCli | tools/doc_converter.py:541-570 | A file exits 0 exactly when it converts, and reports its record. A directory always exits 0, with counts that add up to the records and the failed count. Any other path exits 1. |

## Left out

- File reading and writing, the creation of the output directory, logging and
  the printed messages are not modelled. Neither are argparse and the
  `--verbose` switch. The glob itself is left out too: the directory listing,
  recursive or not, is an input in `glob` order.
- python-docx, mammoth, pdfplumber, PyPDF2 and pandas are not modelled; their
  outputs are inputs. Errors that the libraries raise while reading a Word
  file are not modelled. A PDF library's failure is an input `Failure`.
- `Pdf.Library` keeps the `PyPdf2` case of the `elif PyPDF2` fallback
  (tools/doc_converter.py:236-244), but that branch cannot run: PyPDF2 and
  pdfplumber are imported in one `try` block (lines 33-38), so either both
  are available, and pdfplumber is used, or neither is. The model treats the
  two libraries alike, so no result depends on this.
- `_convert_excel`, `_convert_html`, `_convert_rtf`, `_convert_csv`,
  `_convert_text`, `_copy_markdown`, the regular-expression stripper
  `_html_to_markdown` and the inline regular expressions of `_convert_rtf`
  are out of scope. Their effect on
  `convert_file` and `convert_directory` is the `run` result each file
  carries.
- `json.dumps` is the parameter `quote`, and no property of its output is
  assumed.
- The `word_count`, `character_count` and `pages_processed`-style summary
  fields are left out, except the page count of the PDF handler. The summary
  a handler reports is reduced to its `content_type`.
- `Strings.Lower` lower-cases ASCII letters only. Python's `str.lower` also
  maps non-ASCII capitals, e.g. the Kelvin sign to `k`, so a style or suffix
  written with such letters is compared differently.
- `Paths.Suffix` follows the last-dot rule of `pathlib`. It does not model
  names that end in a dot, or the separator handling of a full path; the
  directory part is kept apart as `FilePath.dir`.
- `Dispatch.OutputFile` does not model an output name that contains a path
  separator.
