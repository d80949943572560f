# json2csv-parser core, modelled in Dafny

json2csv-parser reads one JSON document and writes one CSV file per "table" found in it. This project models the path from the parsed tree to the CSV files:

- **The JSON tree** (`ast.h`, `ast.c`). It is an immutable `Value`/`Pair` datatype. A `Node` class models the operations that grow a node in place (`add_pair_to_object`, `add_element_to_array`) and the node constructors.
- **Schema inference** (`analyze_ast`). `Ast.AnalyzeAst` makes one shallow pass over the root object's fields. It prepends a `Table(name, columns)` for every field whose value is an object, or a non-empty array led by an object.
- **The key-set helpers** (`compare_key_sets`, `find_key_set`, `create_key_set`, `collect_key_sets`, `create_table_from_key_set`). Nothing in the program calls them. They are modelled as pure functions in module `KeySets`.
- **CSV emission** (`csv_generator.c`). It covers field escaping, cell text, the header, first-match key lookup, and the table passes.
  - Each row draws its id from one shared counter, post-incremented, starting at 1.
  - A nested object or array is fanned out into the file of the first table whose name equals the column.
  - The module `CsvGenerator` states a run as functions on an `Output` value: the next id, the files, and the log of row ids. A file is a map entry from table name to a sequence of `Line`s.
  - The `CsvContext` class performs the same run in place. Its methods are proved to end in the state those functions describe.
- **The root rewrite in `main.c`**. An object root with no array-valued field of its own becomes `{"users": [root]}`.

The model reproduces the behaviour of the code, including these quirks:

- No `"id"` column is added. The header therefore shows the first key's name above the id, and a row never writes that first key's value. An id column was evidently intended: `write_csv_header` labels its first column as the ID (`csv_generator.c:151`), and the unused `create_table_from_key_set` puts `"id"` first (`ast.c:330`). But `analyze_ast` copies only the shape object's keys (`ast.c:370-375`, `ast.c:386-391`), while `process_object` writes the id first and fills the columns after the first (`csv_generator.c:195-198`). The model follows the code.
- Schema order is the reverse of field order.
- Every table's top-level row is sourced from the whole root, not from the field named after the table. One consequence is proved in `Driver.WrappedRunLosesValues`: when the wrapped object has at least one key and none of its keys is `"users"`, the single row of `users.csv` has id 1 and empty cells, so the object's own values are never written.
- A table's pass truncates its file. This wipes any rows appended to it earlier by nested fan-out from other passes (`CsvGeneratorProofs.TablePassFile`).
- The empty root `{}` is wrapped into a `users` table with no columns. That table breaks `write_csv_header`'s need for a first column (`Driver.EmptyRootHeaderUnwritable`). `CsvGenerator.GenerateCsv` states that need as its precondition.

Escaping follows rules 6 and 7 of section 2 of RFC 4180, with two differences: only a comma, a line feed or a double quote triggers quoting, and lines end in a bare line feed.

## Model

| member | source | states |
|---|---|---|
| Ast.Node.CreateObject | ast.c:7-20 | an object node keeps the first `count` entries of a present buffer with a positive count; otherwise it is empty with count 0 |
| Ast.Node.CreateArray | ast.c:22-35 | an array node keeps the first `count` elements of a present buffer with a positive count; otherwise it is empty with count 0 |
| Ast.Node.CreateScalar | ast.c:37-62 | a string, number, boolean or null node stands for exactly the given value |
| Ast.Node.AddPair | ast.c:72-84 | on an object, the pair becomes the new last entry, the count grows by one and earlier entries are unchanged; on any other node it is fatal with the source's message and nothing changes |
| Ast.Node.AddElement | ast.c:86-98 | on an array, the element becomes the new last element, the count grows by one and earlier elements are unchanged; on any other node it is fatal and nothing changes |
| Ast.KeysOf | ast.c:372-375 | the columns are the entries' keys, one per entry, in entry order |
| Ast.TableFor | ast.c:361-392 | a field yields a table iff its value is an object or a non-empty array whose first element is an object; the table is named by the key and its columns are exactly the shape object's keys (no "id") |
| Ast.CopyKeys | ast.c:370-375 | the column-copy loop produces exactly the shape object's keys in order |
| Ast.AnalyzeAst | ast.c:345-396 | no schema iff no root; a non-object root gives an empty schema with count 0; otherwise the tables are those of the root's fields, each prepended, and the count equals the number of tables |
| Ast.TablesOf | ast.c:356-393 | the schema as a definition: the loop over the root's fields, each new table prepended; its length, order and sources are stated by the lemmas below |
| Ast.TablesOfCount | ast.c:367-369 | the schema holds one table per table-defining field |
| Ast.TablesOfPosition | ast.c:366-369 | the table of field i stands at the position given by the number of table-defining fields after it |
| Ast.TablesOfSource | ast.c:356-393 | a table is in the schema iff some root field yields exactly that table |
| Ast.TableSourceOf | ast.c:356-393 | every table in the schema is the table of some root field |
| Ast.TableOfSource | ast.c:356-393 | the table of every table-defining root field is in the schema |
| Ast.SchemaOrderReversed | ast.c:382-385 | of two table-defining fields, the later one's table comes first in the schema |
| Ast.OnlyFirstElementShapes | ast.c:361-363 | array elements after the first never affect the table |
| KeySets.ContainsKey | ast.c:216-222 | the inner search finds a key iff the key occurs in the list |
| KeySets.AllKeysFound | ast.c:212-227 | the outer loop succeeds iff every key occurs in the other list |
| KeySets.CompareKeySets | ast.c:202-230 | holds iff both are objects with equal entry counts and every key of the first occurs among the second's keys |
| KeySets.FindKeySetFrom | ast.c:233-266 | returns the first key set with the object's entry count that holds every key of the object, or none when there is no such key set |
| KeySets.FindKeySet | ast.c:233-266 | find_key_set returns the first key set of the list that describes the object, and none only when none does |
| KeySets.CreateKeySet | ast.c:269-281 | the new key set describes the object it was made from, holds its keys in entry order, and is named by the hint, or "table" without one |
| KeySets.CreateTableFromKeySet | ast.c:322-342 | the table bears the key set's name; its columns are "id" and then the key set's keys, one more than the keys |
| KeySets.CollectKeySets | ast.c:294-319 | the list comes back exactly as it went in, for a missing node too |
| KeySets.CollectFromValue | ast.c:297-318 | the recursion over objects never adds a key set |
| KeySets.CollectFields | ast.c:299-315 | the loop over the entries, descending into objects and into arrays led by an object, leaves the list unchanged |
| KeySets.KeySetTableAddsId | ast.c:322-342 | the table built from a field's key set is the inferred table's name with "id" in front of the inferred columns |
| CsvFields.QuotesForceQuoting | csv_generator.c:40-47 | a string holding a double quote always needs quotes |
| CsvFields.Escape | csv_generator.c:32-80 | the escaped text as a definition: quoted with every inner quote doubled iff it holds a comma, line feed or quote; its properties are the lemmas below |
| CsvFields.EscapeRoundTrip | csv_generator.c:32-80 | a CSV reader that strips the enclosing quotes and undoubles inner quotes recovers exactly the original string |
| CsvFields.EscapeLength | csv_generator.c:55-79 | a quoted field has length `len + #quotes + 2`; an unquoted one is the input itself |
| CsvFields.EscapeUnchangedIff | csv_generator.c:49-52 | the field is unchanged iff it holds no comma, line feed or double quote |
| CsvFields.DoubleQuotesNoQuote | csv_generator.c:64-71 | text without double quotes is copied as it is |
| CsvFields.EscapeExample | csv_generator.c:32-80 | `a"b` becomes `"a""b"`, and `ab` stays `ab` |
| CsvFields.EscapeCsvField | csv_generator.c:32-80 | a missing string gives the empty field; otherwise the counting loop, the early return and the cursor-filled buffer produce exactly the escaped field |
| CsvFields.QuoteInto | csv_generator.c:55-79 | given the exact quote count, the cursor-filled buffer of that size holds the opening quote, the text with every quote doubled, and the closing quote |
| CsvFields.CellText | csv_generator.c:112-147 | a string is written escaped (and reads back as the string), a number as its `%d` text, a boolean as `true` or `false`; the cell is empty iff the value is null, an object, an array or the empty string |
| CsvFields.NatText | csv_generator.c:195 | the text of a non-negative number is decimal digits without a leading zero (except for 0 itself) that read back as the number |
| CsvFields.IntText | csv_generator.c:195 | `%d` text: a leading minus sign exactly for a negative number, then decimal digits without a leading zero (except for 0 itself) that read back as its magnitude |
| Common.FirstWithKey | csv_generator.c:164-170 | the linear search (used for entry keys and table names) returns the first position with the key, and none only when no element has it |
| CsvFields.FindPairByKey | csv_generator.c:161-171 | a non-object has no entry; otherwise the result is the first entry with the key, or none when no entry has it |
| CsvFields.RowCells | csv_generator.c:198-234 | a row has one cell per given column, in column order; each cell is that column's first matching value's text, or empty when the key is missing |
| CsvFields.RowLayout | csv_generator.c:150-158 | a row has as many fields as the header; the id sits under the first column and each later column holds the object's value for that column |
| CsvFields.LineRoundTrip | csv_generator.c:150-158 | a written header or row ends in a line feed, and splitting it at commas gives its fields back when none holds a comma |
| CsvFields.Fields | csv_generator.c:150-158 | the fields of a line as a definition: a header's column names, or a row's id text followed by its cells (csv_generator.c:195-236); `RowLayout` and `LineRoundTrip` state its properties |
| CsvFields.LineText | csv_generator.c:150-158 | the printed line as a definition: the first field, each later field after a comma, then a line feed; `LineRoundTrip` reads it back |
| CsvGenerator.FirstTableNamed | csv_generator.c:208-231 | the nested-table search returns the first table bearing the name, and none only when no table does |
| CsvGenerator.Allocate | csv_generator.c:185 | the post-increment `context->next_id++` (also at csv_generator.c:222, 262 and 269) as a definition: the next id goes up by one |
| CsvGenerator.Open | csv_generator.c:215 | `fopen(..., "a")` as a definition: the file exists afterwards and keeps its lines |
| CsvGenerator.Truncate | csv_generator.c:250 | `fopen(..., "w")` as a definition: the file is emptied |
| CsvGenerator.WriteLine | csv_generator.c:150-158 | a completed header or row line as a definition: one more line at the end of the table's file (rows at csv_generator.c:195-236) |
| CsvGenerator.EmitObject | csv_generator.c:191-237 | process_object as a definition on an `Output` value; `ProcessObject` is proved to end in it, and `ObjectIds`, `ObjectAppends`, `ObjectRowLast` and `NestedIdsLarger` state its properties |
| CsvGenerator.EmitFields | csv_generator.c:198-234 | the column loop as a definition; `FieldsIds`, `FieldsAppends` and `FieldsWithoutFanOut` state its properties |
| CsvGenerator.EmitField | csv_generator.c:199-233 | one column's nested fan-out as a definition; `FieldRouting` and `FieldArrayRouting` state where its rows go |
| CsvGenerator.EmitArray | csv_generator.c:177-188 | process_array as a definition; `ArrayIds`, `ArrayAppends`, `ArrayRowsInOrder` and `ArrayWithoutFanOut` state its properties |
| CsvGenerator.EmitElements | csv_generator.c:180-187 | the element loop as a definition; `ElementsIds`, `ElementsAppends`, `ElementsRowsInOrder` and `ElementsWithoutFanOut` state its properties |
| CsvGenerator.TablePass | csv_generator.c:250-272 | one pass of generate_csv as a definition; `TablePassIds` and `TablePassFile` state its properties |
| CsvGenerator.Passes | csv_generator.c:244-276 | the passes in schema order as a definition; `PassesIds`, `PassesKeep` and `PassesHeaders` state its properties |
| CsvGenerator.Generate | csv_generator.c:240-277 | generate_csv as a definition: nothing without a root or a schema; `GenerateIds` states its id discipline |
| CsvGenerator.WriteNodeValue | csv_generator.c:112-147 | the cell text written for a value is its `CellText`; a missing value writes nothing |
| CsvGenerator.CsvContext.constructor | csv_generator.c:99 | a new context has ids starting at 1 and no files |
| CsvGenerator.CsvContext.WriteCsvHeader | csv_generator.c:150-158 | appends the header line, which needs a first column |
| CsvGenerator.CsvContext.ProcessObject | csv_generator.c:191-237 | ends in exactly the state `EmitObject` describes: the row is started with its id, each column after the first is visited and fanned out, and the completed row is appended to the table's file |
| CsvGenerator.CsvContext.ProcessColumn | csv_generator.c:199-233 | one column's cell text is its `CellFor`, and the state after the nested search, open and processing is exactly what `EmitField` describes |
| CsvGenerator.CsvContext.ProcessArray | csv_generator.c:177-188 | ends in exactly the state `EmitArray` describes: each object element is processed with a freshly allocated id, and other elements are skipped |
| CsvGenerator.InitCsvContext | csv_generator.c:83-101 | the directory is the given one, or `./csv_output` when it is missing or empty; no context when the directory cannot be created; ids start at 1 |
| CsvGenerator.CsvContext.WriteTable | csv_generator.c:250-272 | one pass ends in exactly the state `TablePass` describes: the file truncated, the header written, then the row of an object root or one row per object element of an array root |
| CsvGenerator.GenerateCsv | csv_generator.c:240-277 | nothing happens without a root, a schema or a context; otherwise it ends in exactly the state of the passes in schema order, each truncating, writing the header and the rows of the root |
| CsvGeneratorProofs.ObjectIds | csv_generator.c:191-237 | an object's row logs its id first, and everything it fans out uses the next ids in turn |
| CsvGeneratorProofs.FieldsIds | csv_generator.c:198-234 | the column loop starts one row per id it hands out, in order |
| CsvGeneratorProofs.FieldIds | csv_generator.c:206-231 | a nested object takes the next id and its row starts first |
| CsvGeneratorProofs.ArrayIds | csv_generator.c:177-188 | an array's rows take consecutive ids |
| CsvGeneratorProofs.ElementsIds | csv_generator.c:180-187 | the element loop starts one row per id it hands out, in order |
| CsvGeneratorProofs.TablePassIds | csv_generator.c:258-272 | a pass starts one row per id it hands out, in order |
| CsvGeneratorProofs.PassesIds | csv_generator.c:244-276 | all passes together start one row per id, in order |
| CsvGeneratorProofs.GenerateIds | csv_generator.c:99 | from a fresh context the rows carry ids 1, 2, …, each used once and in strictly increasing order, with no id handed out without a row |
| CsvGeneratorProofs.NestedIdsLarger | csv_generator.c:185 | a row's id is smaller than every id of the rows it fans out (csv_generator.c:222 too) |
| CsvGeneratorProofs.AppendsRowsTrans | csv_generator.c:215 | appending rows composes: two appending steps are one appending step over the union of their id ranges |
| CsvGeneratorProofs.ObjectAppends | csv_generator.c:191-237 | processing an object only appends rows to files, with ids from its own id up to the next id, and never removes a file |
| CsvGeneratorProofs.FieldsAppends | csv_generator.c:198-234 | the column loop only appends rows with ids it handed out |
| CsvGeneratorProofs.FieldAppends | csv_generator.c:206-231 | the nested open only appends rows and never truncates or removes a file; a nested object or array whose key finds a table creates that table's file, even when no row is written |
| CsvGeneratorProofs.ArrayAppends | csv_generator.c:177-188 | an array only appends rows with ids it handed out |
| CsvGeneratorProofs.ElementsAppends | csv_generator.c:180-187 | the element loop only appends rows with ids it handed out |
| CsvGeneratorProofs.TablePassFile | csv_generator.c:250-272 | after a pass, its table's file holds the header and then only rows with ids from that pass, so earlier nested appends are wiped; an object root's own row is the last line; any other scalar root leaves only the header; other files only gain rows |
| CsvGeneratorProofs.PassesKeep | csv_generator.c:244-276 | later passes that never truncate a file only append rows to it |
| CsvGeneratorProofs.PassesHeaders | csv_generator.c:244-276 | after a run, the file of each table whose pass is the last for its name starts with that table's header, followed only by rows |
| CsvGeneratorProofs.ObjectRowLast | csv_generator.c:236 | an object's completed row is the last line of its table's file |
| CsvGeneratorProofs.FieldRouting | csv_generator.c:206-231 | a column writes nothing when the key is missing, the value is a scalar or no table bears the column's name; a nested object becomes a row with the next id at the end of the first such table's file |
| CsvGeneratorProofs.FieldArrayRouting | csv_generator.c:206-231 | under any fan-out, a column holding an array writes into the FIRST table bearing the column's name: that file keeps its lines and gains the rows of the array's object elements in order, with increasing ids handed out by the column |
| CsvGeneratorProofs.ObjectWithoutFanOut | csv_generator.c:191-237 | with no table named after a column, an object adds just its own row and uses no further id |
| CsvGeneratorProofs.FieldsWithoutFanOut | csv_generator.c:198-234 | with no table named after a column, the column loop changes no file and hands out no id |
| CsvGeneratorProofs.ElementWithoutFanOut | csv_generator.c:183-186 | with no fan-out, an element adds one row when it is an object and nothing otherwise |
| CsvGeneratorProofs.ElementsWithoutFanOut | csv_generator.c:180-187 | with no fan-out, the element loop appends one row per object element, in order, with consecutive ids |
| CsvGeneratorProofs.ArrayWithoutFanOut | csv_generator.c:177-188 | with no fan-out, an array contributes exactly one row per object element and skips the rest |
| CsvGeneratorProofs.ObjectsOfConcat | csv_generator.c:180-187 | the object elements of two runs of elements are those of each run, in order |
| CsvGeneratorProofs.FlatRowsConcat | csv_generator.c:180-187 | consecutive rows for two runs of objects are the first run's rows, then the second's with ids continuing |
| CsvGeneratorProofs.ObjectRowAppended | csv_generator.c:191-237 | an object processed with a freshly allocated id keeps its table's file in front, grows it, and leaves its own row last |
| CsvGeneratorProofs.ElementsRowsInOrder | csv_generator.c:180-187 | under any fan-out, the element loop leaves one row per object element in the table's file, in element order, with increasing ids it handed out; nested rows may fall between them |
| CsvGeneratorProofs.ArrayRowsInOrder | csv_generator.c:177-188 | under any fan-out, an array's object elements become rows of the table's file in order, with increasing ids, the earlier lines kept in front |
| Driver.WrapSingleObjectRoot | main.c:43-60 | the scan stops at the first array field; an object root without one is replaced by a fresh `{"users": [root]}`; any other root is returned as it is |
| Driver.WrapRoot | main.c:43-60 | the root rewrite as a definition: only an object root without a direct array field is wrapped as `{"users": [root]}`; `WrappedSchema` and `UnwrappedRoots` state its effect |
| Driver.WrappedSchema | main.c:52-58 | after wrapping, the schema is exactly one table named "users" whose columns are the original root's keys in order |
| Driver.UnwrappedRoots | main.c:43-51 | non-object roots and objects with a direct array field are left unchanged; a non-object root yields no table |
| Driver.DeeperArrayStillWrapped | main.c:45-51 | an array nested one level down does not prevent the wrapping |
| Driver.EmptyRootHeaderUnwritable | main.c:44-58 | `{}` is wrapped into a "users" table with no columns, which does not meet the header's need for a first column |
| Driver.WrappedRunLosesValues | main.c:52-58 | a run on a wrapped root whose keys exclude "users" writes only the header and one row with id 1 and empty cells to users.csv |

## Left out

- `print_ast` and `print_indent` are debug printing to standard output.
- `free_ast`, `free_schema`, `free_key_set` and `free_csv_context` release memory, which has no counterpart here. The same goes for the malloc-failure branches and the `strdup` leaked when `main.c` wraps the root.
- Directory creation (`ensure_directory_exists`) is a parameter of `CsvGenerator.InitCsvContext`: whether the directory could be created.
- File-system I/O and path building are abstract. A file is the sequence of lines written under a table's name, every open is taken to succeed, and a path longer than the 512-byte buffer is not modelled; files are keyed by table name, so distinct names are distinct files. In C, distinct names can reach the same path (`a` and `./a`, or `Users` and `users` on the case-insensitive file systems the `_WIN32` branch targets); such tables share one file, which also leads to the two-handles case below.
- The failure path of the nested open (csv_generator.c:216-219) is not modelled. Its `continue` retests the same table without advancing, so a failing open would retry forever.
- Strings are sequences of characters. The C works on NUL-terminated byte strings (`strcmp`, `strlen`, `strdup`); only ASCII characters (comma, line feed, double quote) drive quoting, so the two agree for strings without NUL bytes. A string holding a NUL byte, which C would cut short, is not modelled.
- Numbers are modelled as integers written in decimal (`CsvFields.IntText`). This agrees with `%g` for integers of magnitude below 10^6. Fractions, exponents and larger magnitudes are not modelled.
- The parser, argument handling and exit codes of `main.c` are outside the model. The only part of `main.c` modelled is the root wrapping.
- Two handles open on the same file at once are not modelled. This happens whenever fan-out reaches a table whose file is still open higher up the recursion: directly, when a column is named like its own table, or through other tables. For example, the root `{"a":{"x":1,"b":{}},"b":{"y":1,"a":{}},"c":[]}` gives the tables b[y,a] and a[x,b], and the pass for b reaches `b.csv` again through table a. The model appends every line to one sequence per file and places a parent row after the nested rows it triggers, because the parent row is completed last. In C, while the pass's output is still buffered, its `"w"` handle writes from offset 0 when it is closed, so the nested rows written through the other handle are overwritten from the pass's write position; whatever of them extends beyond the pass's own output survives as a broken tail. With two `"a"` handles, the order depends on when each buffer is flushed.
- Ids are unbounded integers. The C `int` counter could overflow after 2^31 - 1 rows.
- Nodes are values in the model. `add_element_to_array` and `add_pair_to_object` store pointers, so later changes to a shared child would show through in C but not here.
- The source line and column kept in each node are not modelled, because nothing in the core reads them.
