# xyz_to_fdf: XYZ geometry to SIESTA FDF input

This project models the converter `xyz_to_fdf` of the web application in
`converter/views.py`. The converter reads an XYZ molecular-geometry file and writes an FDF
input file for the SIESTA simulation code. It works in two phases:

- **Reading.** Line 0 holds the declared atom count, read with `int(line.strip())`.
  Line 1 is a comment and is skipped. Every later line whose `strip()` is non-empty is
  split with `str.split()` into a symbol and three coordinates; coordinates go through
  `float()`. The symbol is looked up in the fixed species table C→1, N→2, O→3, H→4, S→5.
  The first line that raises ends the conversion.
- **Writing.** Only once every line is read is the output file opened. The converter then
  writes a fixed header carrying the declared count, one row per atom in input order,
  and a fixed footer.

The Dafny modules follow that structure:

- `Wrappers`: `Option` and `Result`.
- `PyText`: the parts of Python's string handling the converter relies on.
  - `str.strip()` and `str.split()`, both over the `str.isspace()` character set.
  - `int()` on a stripped line, and `str()` of an int.
  - A line view of text, as join with `'\n'` and split on `'\n'`.
- `Species`: the species table and its lookup.
- `Xyz`: the reading phase as functions.
  - `ParseCount` reads line 0, `CoordLines` drops lines 0 and 1, and `ParseAtom` reads one line.
  - `Collect`/`ParseAtoms` is the loop over the lines, and `ParseFile` is the whole phase.
  - Lemmas about which lines matter, which error wins and which values come out.
- `Fdf`: the output text as functions. The template constants, the row of an atom,
  `Render` for the whole file, and lemmas about its line structure and how its rows
  read back.
- `Converter`: the program as it runs.
  - `OutputFile`, a class whose contents grow by `Write`.
  - The reading loops `ReadAtoms`, `ReadCoordinates` and `ReadAtom`.
  - The writing methods `WriteHeader`, `WriteRows` and `WriteFdf`.
  - `XyzToFdf`, which runs both phases. Each is proved against its `Xyz`/`Fdf` specification function.

Floats are not interpreted. The element type `F` is generic. `float()` on one field is a
parameter `parse: string -> Option<F>`, which gives `None` where Python raises. The
`%10.5f` rendering of one value is a parameter `format: F -> string`. The Python
exceptions become the `Xyz.Error` datatype:

- `BadCount`: `IndexError` or `ValueError` on line 0.
- `BadLine`: `IndexError` on `parts[1..3]`.
- `BadFloat`: `ValueError` from `float()`.
- `UnknownElement(symbol)`: the `ValueError` raised for an unmapped symbol.

## Model

| member | source | states |
|---|---|---|
| Species.Lookup | converter/views.py:44-46 | the `symbol not in species_map` test and `species_map[symbol]` over the table of lines 17-23: exactly the five symbols C, N, O, H, S resolve (exact, case-sensitive match), each to an index in 1..5 |
| Species.LookupTable | converter/views.py:17-23 | the table entry by entry: C→1, N→2, O→3, H→4, S→5 |
| Species.LookupInjective | converter/views.py:17-23 | two symbols with the same species index are the same symbol |
| Xyz.ParseCount | converter/views.py:30 | succeeds exactly when line 0 exists and int() accepts its strip(), with that value; otherwise BadCount |
| Xyz.CoordLines | converter/views.py:33 | the coordinate candidates are lines[2:]: line i of the result is input line i + 2, and there are max(0, n − 2) of them |
| Xyz.ParseAtom | converter/views.py:39-46 | definition: one non-blank line, split, fields 1..3 converted in order, then the symbol looked up; described by ParseAtomSpec |
| Xyz.ParseAtomSpec | converter/views.py:39-46 | one line yields an atom iff it has ≥ 4 fields, fields 1..3 are floats and field 0 is in the table. Each error occurs exactly when the checks before it in execution order pass. A field or float error comes before the symbol check; extra fields are ignored; UnknownElement carries field 0 |
| Xyz.Retained | converter/views.py:37-38 | definition: the coordinate lines whose strip() is non-empty, in order; described by RetainedStep and RetainedAppend |
| Xyz.RetainedAppend | converter/views.py:37-38 | the non-blank lines of a concatenation are those of the two parts, in order |
| Xyz.RetainedStep | converter/views.py:37-38 | one more line keeps the retained lines so far and appends the line exactly when its strip() is non-empty |
| Xyz.Collect | converter/views.py:36-47 | definition: the loop, for any conversion of one line; described by CollectSucceeds, CollectValues, CollectFirstError and CollectFailsAt |
| Xyz.ParseAtoms | converter/views.py:36-47 | definition: the loop with ParseAtom as the conversion; ReadCoordinates is proved to compute it |
| Xyz.CollectSucceeds | converter/views.py:36-47 | the loop succeeds iff every retained (non-blank) line converts |
| Xyz.CollectValues | converter/views.py:36-47 | on success one value per retained line, in input order, each the conversion of that line |
| Xyz.CollectFirstError | converter/views.py:36-47 | on failure the error is that of some retained line all of whose predecessors converted |
| Xyz.CollectFailsAt | converter/views.py:36-47 | conversely, the first retained line that raises decides the loop's error |
| Xyz.CollectFailureIsFinal | converter/views.py:37-47 | once a prefix of the lines has raised, the lines after it do not change the outcome |
| Xyz.FirstFailureUnique | converter/views.py:37-47 | there is only one first failing line |
| Xyz.CollectRetainedOnly | converter/views.py:37-38 | two line lists with the same retained lines give the same outcome |
| Xyz.ParseFile | converter/views.py:30-47 | definition: the whole reading phase; described by ParseFileSucceeds, ParseFileValues and ParseFileFailure |
| Xyz.ParseFileSucceeds | converter/views.py:30-47 | the reading phase succeeds iff line 0 is an int and every retained line parses |
| Xyz.ParseFileValues | converter/views.py:30-47 | on success the count is int(line 0), and there is one atom per retained line, in order, each the atom its line parses to |
| Xyz.ParseFileFailure | converter/views.py:30-47 | on failure: BadCount iff line 0 is missing or not an int; otherwise the error of the first retained line that does not parse |
| Xyz.FirstBadLineDecides | converter/views.py:44-45 | the first retained line that raises, an unknown symbol in particular, aborts the conversion with its error, whatever follows |
| Xyz.CommentIgnored | converter/views.py:33 | replacing line 1 never changes the outcome |
| Xyz.BlankLineIgnored | converter/views.py:38 | inserting a whitespace-only line anywhere after line 1 never changes the outcome |
| Xyz.DeclaredCountNotChecked | converter/views.py:30 | whatever int line 0 declares, the outcome is that of the coordinate lines, paired with the declared value, with no comparison to the number of atoms |
| Xyz.CountLineRoundTrip | converter/views.py:30 | a count line written as str(m) and '\n' reads back as m |
| Xyz.SpeciesInRange | converter/views.py:44-47 | on success every atom's species index is in 1..5 and is the table entry for field 0 of its line |
| Fdf.CountLine | converter/views.py:54 | the NumberOfAtoms line spans no line break |
| Fdf.CountLineFields | converter/views.py:54 | split() of the NumberOfAtoms line gives the label and str(n), and int() reads the second field back as n |
| Fdf.Header | converter/views.py:52-73 | definition: the text written before the first row; WriteHeader is proved to write it |
| Fdf.RowLine | converter/views.py:78 | definition: the row of one atom; described by RowFields, RowSpecies and RowHasNoNewline |
| Fdf.RowLines | converter/views.py:77-78 | one row per atom, row i being atom i's row |
| Fdf.Render | converter/views.py:50-103 | definition: the whole output text; described by RenderLines and ConvertRows, and WriteFdf is proved to write it |
| Fdf.TemplateEndsWithNewline | converter/views.py:52-80 | every template block ends a line |
| Fdf.RowHasNoNewline | converter/views.py:78 | a row is one line as long as a formatted float spans no line break |
| Fdf.SplitLinesLayout | converter/views.py:50-103 | the line structure of header, count line, blocks, rows and footer composes part by part |
| Fdf.RenderLines | converter/views.py:50-103 | read back line by line, the output is the template lines, the count line, one row per atom in order, then the footer lines; the template lines do not depend on the input |
| Fdf.FieldsOfRowText | converter/views.py:78 | the fields of a row are the fields of the three rendered floats and then the species field |
| Fdf.RowFields | converter/views.py:78 | str.split() of an atom's row gives the fields of fmt(x), fmt(y), fmt(z) and str(species) |
| Fdf.RowSpecies | converter/views.py:78 | the last field of a row reads back through int() as the atom's species index |
| Converter.OutputFile.Truncate | converter/views.py:50 | open(path, 'w') empties the file |
| Converter.OutputFile.Write | converter/views.py:52 | out.write(s) appends s and changes nothing else |
| Converter.ReadAtoms | converter/views.py:30-47 | the reading phase computes ParseFile |
| Converter.ReadCoordinates | converter/views.py:36-47 | the loop over lines[2:] computes ParseAtoms; loop invariant: the atoms so far are the outcome on the processed prefix |
| Converter.ReadAtom | converter/views.py:39-47 | the body for one non-blank line computes ParseAtom, raising at the same check |
| Converter.WriteHeader | converter/views.py:52-73 | the header writes append exactly Header(count) |
| Converter.WriteRows | converter/views.py:77-78 | the row loop appends the rows of the atoms in order; invariant: the file holds the rows of the processed prefix |
| Converter.AppendRow | converter/views.py:77-78 | writing row i extends the text of rows 0..i−1 to rows 0..i |
| Converter.WriteFdf | converter/views.py:50-103 | all the writes append exactly Render(count, atoms) |
| Converter.XyzToFdf | converter/views.py:9-103 | the result is Convert; on success the file holds exactly the rendered text; on failure the file is untouched, since it is opened only after reading |
| Converter.Convert | converter/views.py:9-103 | definition: the result of a call, the rendered text or the error raised; XyzToFdf is proved to compute it |
| Converter.ConvertOutcome | converter/views.py:9-103 | the conversion fails iff reading fails, with the same error, and otherwise renders what was read |
| Converter.ConvertLines | converter/views.py:9-103 | on success the output, line by line, is the fixed template around the count line for int(line 0) and the rows of the parsed atoms |
| Converter.ConvertRows | converter/views.py:37-78 | on success there is one row per retained input line, in input order, row i rendering the atom of retained line i |
| PyText.Strip | converter/views.py:30 | definition: str.strip(), the slice between the leading and the trailing whitespace; described by StripBlank, StripRemovesSpace, StripKeepsEnds and StripWord |
| PyText.StripBlank | converter/views.py:38 | strip() gives the empty string iff the line is whitespace only |
| PyText.StripRemovesSpace | converter/views.py:30 | what strip() removes before and after the slice it keeps is whitespace |
| PyText.StripKeepsEnds | converter/views.py:30 | what strip() keeps neither starts nor ends with whitespace |
| PyText.StripWord | converter/views.py:30 | strip() of a word followed by whitespace (a line and its '\n') is the word |
| PyText.Fields | converter/views.py:39 | str.split() yields non-empty fields without whitespace, and none exactly for a blank line |
| PyText.FieldsJoinWords | converter/views.py:39 | split() after joining words with spaces gives the words back |
| PyText.FieldsAppend | converter/views.py:39 | the fields of two texts meeting at whitespace are the fields of each |
| PyText.FieldsAcrossGap | converter/views.py:78 | whitespace between two texts separates their fields |
| PyText.ParseInt | converter/views.py:30 | int() on an already stripped line, as line 0 is passed to it: accepts only text that neither starts nor ends with whitespace |
| PyText.NatToString | converter/views.py:54 | str() of a non-negative int is a non-empty digit string of that value |
| PyText.IntToString | converter/views.py:54 | str() of an int is one word with no line break |
| PyText.ParseIntToString | converter/views.py:54 | int(str(i)) == i |
| PyText.JoinLinesAppend | converter/views.py:77-78 | the text of two line lists is the concatenation of their texts |
| PyText.SplitJoinLines | converter/views.py:50-103 | splitting on '\n' a text of whole lines gives those lines back |
| PyText.SplitLinesOfLine | converter/views.py:78 | one line with its terminator splits into that line |
| PyText.SplitLinesAppend | converter/views.py:50-103 | a text whose first part ends a line splits as the two parts do |

## Left out

- `ConvertView` (converter/views.py:105-169): Django request handling, form validation,
  temporary files and the HTTP response; I/O glue around the converter.
- File I/O: opening and reading the input and the `readlines()` split. The input is the
  list of lines `readlines()` returns, each with its `'\n'`. Newline translation and
  encodings are not modelled, and the output file is the `OutputFile` object.
- Float semantics: `float()` and `%10.5f` are parameters. Nothing is claimed about
  their grammar, rounding or width; a large value can exceed ten characters.
- PyText.ParseInt: models int() on an already stripped line and does not strip its
  argument itself. The converter always strips line 0 first, so the case does not arise.
  ParseInt accepts an optional sign and ASCII digits only. Python's `int()` also accepts
  underscores between digits and non-ASCII decimal digits, and both are left out. It also
  leaves out the limit of 4300 digits that newer CPython releases enforce: they raise
  ValueError, which is BadCount here, where ParseInt succeeds.
- Converter.WriteHeader and Converter.WriteFdf: write each block of consecutive constant
  `out.write` calls as one write of their concatenation. WriteFdf, for example, makes two
  writes for the 22 calls of lines 80-103. The text written is the same, but the number of
  separate write calls is not.
- Python exceptions are modelled as the `Xyz.Error` result. The exception types and
  messages, such as the Portuguese text for an unmapped element, are not.
- The unused `numpy` import.
