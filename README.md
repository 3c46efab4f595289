# checkSupport checklist processing, modelled in Dafny

checkSupport fills in reporting checklists for research manuscripts, such as
PRISMA, STARD and CONSORT, with the help of a local language model. This
project models the text-processing core of that program:

- **Checklist parsing** (`checksupport/fill_checklist.py`). The program decides
  which kind of checklist a text is: PRISMA, STARD, CONSORT, custom (`::`
  separators or many `#`), or generic. It then cuts the text into named
  sections of items with one of three line-by-line parsers.
- **Answer cleanup** (`generate_item_answer`). The model's reply for one item is
  tidied up: it is stripped, a leading `Answer:` is dropped, and an empty answer
  gets a fallback text.
- **Checklist suggestion** (`suggest_checklist.py` and
  `checksupport/suggest_checklist.py`).
  - A manuscript extractor is chosen by the file's extension.
  - The first template name, in list order, that occurs in the model's reply is
    suggested; letter case is ignored.

Files:

- `pystr.dfy` (module `PyStr`): the Python string built-ins the core uses,
  over `seq<char>`. It covers:
  - `strip`, `lower`, `isupper` and `istitle`;
  - `in`, `find`, `startswith`, `endswith`, `count`;
  - `split(sep, 1)`, `split('\n')` and `split()[0]`.

  Each comes with the facts the parsers rely on.
- `fill_checklist.dfy` (module `FillChecklist`): detection, the three parsers,
  routing, and answer cleanup.
  - Each parser is specified by a fold over the lines: one step per line, from
    an explicit state. It is implemented by a method whose `while` loop keeps
    its variables equal to the fold of the lines read so far.
  - What each parser promises is proved about the fold. The proof compares it
    against independent descriptions of the result, built from the lines
    themselves: the items of the item lines, the header names, the
    section-opening lines, and the sections obtained by cutting the text
    at its headers or section-opening lines.
- `suggest_checklist.dfy` (module `SuggestChecklist`): name matching,
  `os.path.splitext`, and the extractor dispatch of `extract_manuscript_text`.
- `checksupport_suggest.dfy` (module `CheckSupportSuggest`): the
  `suggest_checklist_with_ollama` of the installed package.

Modelling choices:

- Whitespace is Python's full `str.isspace` set.
- Letter case (`lower`, `isupper`, `istitle`, `re.IGNORECASE`) is modelled for
  ASCII letters only.
- The PRISMA header patterns are written as predicates over the lower-cased
  line. `Title\s+and\s+Abstract` becomes `TitleAndAbstractAt`, and the other
  five are plain substring tests.
- PRISMA items are bare strings (`Item.Plain`). The custom and generic parsers
  produce text/instruction records (`Item.Instructed`).
- The custom parser adds the previous section only when it has items and a
  non-empty name (`if items and current_section`). An item text such as
  `": x"` opens a section named `""`. Items collected before it are still
  added, under the previous name if that name is non-empty. But while `""` is
  the name in force, the next section-opening line does not add a section:
  the items collected under `""` stay open and go into the next section,
  which takes that line's name. The model keeps this behaviour.
- In the PRISMA parser, `current_section` is only ever set to a non-blank line,
  so its truth test is modelled as "a header has been seen". The `if sections:`
  guards always hold once that is true.

## Model

| member | source | states |
|---|---|---|
| FillChecklist.LinesFacts | checksupport/fill_checklist.py:105 | `content.split('\n')` yields at least one line and no line holds a line break. Joining the lines with line breaks gives back the text. |
| FillChecklist.DetectType | checksupport/fill_checklist.py:75-88 | Each checklist type is fully characterised by its keyword test on the lower-cased text (both directions). PRISMA takes priority over STARD, STARD over CONSORT, and CONSORT over custom. Custom means `::` or more than five `#`; anything else is generic. |
| FillChecklist.DetectTypeIgnoresCase | checksupport/fill_checklist.py:77-86 | Lower-casing the text first does not change the detected type. |
| FillChecklist.ProcessChecklistContent | checksupport/fill_checklist.py:52-73 | PRISMA text goes to the PRISMA parser and custom text to the custom parser. STARD, CONSORT and generic text all go to the generic parser. Only PRISMA output can contain an empty section. |
| FillChecklist.PrismaKindFacts | checksupport/fill_checklist.py:107-116 | A line is skipped exactly when it is all whitespace. It is a header exactly when its stripped form passes the section-pattern test, and the header is named by the stripped line. Every other line gives a bare-string item. |
| FillChecklist.PrismaItemOfFacts | checksupport/fill_checklist.py:122-130 | A line without `#` is the item itself. Otherwise the item is everything after its first `#`, stripped. |
| FillChecklist.PrismaChecklistFacts | checksupport/fill_checklist.py:90-132 | There is one section per header line, named by that line and in line order. With no header there are no sections. The sections hold one item per item line after the first header, all in order; earlier item lines are dropped. Each header's section holds exactly the items of the lines between it and the next header (`PrismaSections`). |
| FillChecklist.PrismaHeaderLastOpensEmptySection | checksupport/fill_checklist.py:115-121 | A header on the last line leaves a final section with that name and no items. |
| FillChecklist.ProcessPrismaChecklist | checksupport/fill_checklist.py:90-132 | The loop's result is the PRISMA fold of the lines, so it has the properties of `PrismaChecklistFacts`. |
| FillChecklist.ProcessStardChecklist | checksupport/fill_checklist.py:134-137 | STARD text is parsed exactly as generic text. |
| FillChecklist.ProcessConsortChecklist | checksupport/fill_checklist.py:139-142 | CONSORT text is parsed exactly as generic text. |
| FillChecklist.CustomKindFacts | checksupport/fill_checklist.py:151-154 | A line is skipped exactly when it is blank or its stripped form starts with `#`. Every kept line gives an item with an instruction, whose text is stripped and occurs in the stripped line. |
| FillChecklist.CustomItemOfFacts | checksupport/fill_checklist.py:156-182 | A line with `::` is cut at its first `::`: the text is the part before and the instruction the part after, both stripped. A line without `::` keeps its text and gets the default instruction. |
| FillChecklist.CustomChecklistFacts | checksupport/fill_checklist.py:144-192 | Each kept line gives exactly one item, and the sections hold them all in line order. No section is empty. Each section is named "General" or by a section-opening line. Each section after the first starts at the item of a section-opening line. Without section-opening lines there is at most one section. The text is cut before exactly those section-opening lines that follow some item while the name in force is non-empty; each piece with items is one section, named by the last section name in force at its end (`CustomSections`). |
| FillChecklist.LastCutFacts | checksupport/fill_checklist.py:161-171 | The last cut of the custom text is the last line before which the open section is closed (a section-opening line after some item while the name in force is non-empty); there is none exactly when no line closes a section. |
| FillChecklist.ProcessCustomChecklist | checksupport/fill_checklist.py:144-192 | The loop plus the final flush give the custom fold of the lines, so the result has the properties of `CustomChecklistFacts`. |
| FillChecklist.GenericKindFacts | checksupport/fill_checklist.py:202-228 | A line is skipped exactly when it is all whitespace. It is a header exactly when its stripped form is non-empty and passes the header test, and the header is named by that stripped line. An item line gives its stripped text with the default instruction; that text is non-blank and fails the header test. |
| FillChecklist.GenericChecklistFacts | checksupport/fill_checklist.py:194-237 | The sections hold one item per non-blank, non-header line, in line order. No section is empty. Each section is named "General" or by a header line. The items of the lines between two headers, or before the first, form one section named by the header before them ("General" before the first), unless there are none (`GenericSections`). |
| FillChecklist.GenericItemsAreNotHeaders | checksupport/fill_checklist.py:207-227 | Every item of a generic checklist is the stripped, non-blank form of some line of the text. It fails the header test and has the default instruction. |
| FillChecklist.ProcessGenericChecklist | checksupport/fill_checklist.py:194-237 | The loop plus the final flush give the generic fold of the lines, so the result has the properties of `GenericChecklistFacts`. |
| FillChecklist.CleanAnswer | checksupport/fill_checklist.py:428-434 | The cleaned answer is never empty and never has leading or trailing whitespace. |
| FillChecklist.CleanAnswerUnprefixed | checksupport/fill_checklist.py:428-434 | A reply whose stripped text does not start with "answer:" (any case) becomes its stripped self, or the not-found text when it is blank. |
| FillChecklist.CleanAnswerPrefixed | checksupport/fill_checklist.py:431-434 | A reply whose stripped text starts with "answer:" (any case) loses exactly those seven characters of the stripped text, and the rest is stripped. If nothing is left, the answer is the not-found text. |
| FillChecklist.CleanAnswerFromReply | checksupport/fill_checklist.py:428-434 | The answer is either the not-found text or a substring of the reply. |
| PyStr.StripIdempotent | checksupport/fill_checklist.py:108 | Stripping a stripped line changes nothing. |
| PyStr.StripEmpty | checksupport/fill_checklist.py:108-110 | A line strips to empty exactly when it is all whitespace. |
| PyStr.IsTitleMeansTitleCased | checksupport/fill_checklist.py:210 | The `istitle` scan holds exactly when the word has a cased letter, no upper-case letter follows a cased character, and every lower-case letter does. |
| PyStr.FirstWordFacts | checksupport/fill_checklist.py:210 | `split()[0]` of a non-blank line is non-empty and has no whitespace. It is a prefix of the left-trimmed line, followed by whitespace or the end. |
| PyStr.SplitOnceParts | checksupport/fill_checklist.py:124 | `split(sep, 1)` gives the whole text when `sep` does not occur. Otherwise it gives the parts before and after the first occurrence, which rejoin to the text. |
| SuggestChecklist.FirstMatchFacts | suggest_checklist.py:114-123 | There is no suggestion exactly when no name occurs in the reply (case-insensitively). Otherwise the suggestion is a listed name that occurs, and no earlier name occurs. |
| SuggestChecklist.FirstMatchIsListed | suggest_checklist.py:115-121 | A suggestion is one of the template names, and the lower-cased reply contains it lower-cased. |
| SuggestChecklist.FirstMatchIgnoresCase | suggest_checklist.py:117 | Lower-casing the reply first does not change the suggestion. |
| SuggestChecklist.MatchChecklistName | suggest_checklist.py:114-123 | The loop with its early exit returns the first matching name in list order. |
| SuggestChecklist.SuggestChecklistWithOllama | suggest_checklist.py:103-127 | A failed request gives no suggestion. Otherwise the stripped `response` text is matched against the names. |
| SuggestChecklist.ExtensionFacts | suggest_checklist.py:51 | The extension ends the path. It is either empty, or a `.` followed by no other `.` and no `/`. |
| SuggestChecklist.ExtensionOfAppended | suggest_checklist.py:51 | If the stem's last character is neither `.` nor `/`, then the stem, a `.` and a suffix free of `.` and `/` have extension `.` plus that suffix. |
| SuggestChecklist.FormatOf | suggest_checklist.py:52-63 | PDF, DOCX and TXT are chosen exactly when the lower-cased extension is `.pdf`, `.docx` or `.txt` respectively. |
| SuggestChecklist.FormatIgnoresCase | suggest_checklist.py:51-66 | For a non-empty stem whose last character is neither `.` nor `/`, and a suffix with no `.` or `/`: the path stem + `.` + suffix picks the PDF, DOCX or TXT extractor exactly when the suffix lower-cases to `pdf`, `docx` or `txt`, whatever its case. Any other such suffix picks none. |
| SuggestChecklist.HiddenFileHasNoFormat | suggest_checklist.py:51-63 | A hidden file such as `.pdf` or `dir/.PDF` (a `.` that starts the last path component, followed by no other `.` or `/`) has no extension, so no extractor is chosen. |
| SuggestChecklist.ExtractManuscriptText | suggest_checklist.py:49-66 | A missing file gives nothing, whatever the extension. A known extension gives what its extractor returns, and an unknown one gives nothing. |
| CheckSupportSuggest.SuggestChecklistWithOllama | checksupport/suggest_checklist.py:12-32 | If the model check fails, there is no suggestion and no API call. If the API returns nothing, there is no suggestion. Otherwise the result is the first listed name that occurs in the response, ignoring case. |

## Left out

- Reading files (`read_checklist_file`) and extracting text from PDF, DOCX and TXT files are left out. The text is an input, and each extractor is a function `Format -> Option<string>` whose `None` stands for its failure.
- `os.path.exists` is a boolean input.
- Paths follow POSIX `os.path` (posixpath): only `/` separates directories. On Windows (ntpath) `\` also separates them, so `dir\.pdf` has the extension `.pdf` there but none in this model.
- HTTP requests to the model server are left out: the reply is an input, and `None` means a failed request. This covers the prompts, payloads, temperatures, stop tokens, and the JSON decoding of `response` (`.get('response', '')` is the text given).
- `check_model_exists`, `call_ollama_api`, `get_suggest_prompt` and the rest of `checksupport/utils.py` are left out; model existence and the API result are inputs. `call_ollama_api` is taken to return the stripped text.
- `get_template_names` (the templates module) is left out; the list of names is an input.
- In `generate_item_answer`, only the answer cleanup is modelled. Building the context text and the error messages for each exception are left out.
- `preprocess_checklist`, `extract_section_text`, `generate_section_answers`, `create_pdf` and the `main` functions make model calls or write files; they are not part of this model.
- Logging, `print`, `sys.exit` and argument parsing are left out.
- `checksupport/cli.py`, `setup.py` and `view_sample_files.py` are not part of this model.
- Regular expressions are not modelled in general. The six PRISMA section patterns are written out as predicates.
- Letter case covers ASCII only. Python's Unicode case mapping and `istitle` rules for other scripts are not modelled.
- The exception handlers around the parsers (`except Exception` returning `None`) are left out: the modelled operations cannot raise.
- The shell provisioning and process-supervision part of the repository is not part of this model.
