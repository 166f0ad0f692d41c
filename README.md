# fsi: a verified model of the code-search indexers

fsi indexes C and C++ source code for retrieval. It has two parts:

- **The Rust tool** (`src/main.rs`):
  - `index` reads paths from standard input and parses each C or C++ file with tree-sitter.
  - It cuts out every outermost syntax node of kind function definition, struct, class or enum specifier. Bodiless specifiers such as a `struct S;` reference are cut out too.
  - The chunks are sent to a vector store in batches, each numbered by a running offset. A batch leaves inside the loop once at least 512 entries are pending; the final flush sends any non-empty remainder.
  - `query` zips the store's answer for one question into records of path, line and code.
- **The C++ tool** (`cxxrag-index`):
  - It walks clang ASTs and builds one code chunk per definition, escaping the texts with `Encode`.
  - It keeps only files under a root directory (`IsChildOf`).
  - It splits the compilation database's files among worker threads (`Chunk`), reads `PATH` (`GetPath`) and prints the chunks as an array.

The model is one Dafny module per concern:

- `common.dfy` (Common): Option/Result, bytes, decimal numerals, `Count`, `Flatten`, `Join`
- `chunk_extractor.dfy` (ChunkExtractor): `get_line`, `walk_tree` (the `Pending` buffers are a class)
- `language.dfy` (Language): `Path::extension` and the extension-to-grammar `match`
- `ingest.dfy` (Ingest): `add`, the batch loop of `index` (a `Collection` class stands for the services)
- `query.dfy` (Query): the result assembly of `query`
- `escape.dfy` (Escaping): `Replace`, `Encode` and the escape they compute
- `code_chunk.dfy` (CodeChunks): `CodeChunk`, `CodeChunk::str`, the signature trim, `IsChildOf`
- `driver.dfy` (Driver): `Chunk`, `GetPath`, the output loop of `main`

**Specifications and proofs.** Each loop or in-place update of the source is a method. The method is proved against a pure specification:

| method | specified by |
|---|---|
| `WalkTree` | `Targets` and `Docs`/`Metas` |
| `Index` | the fold `Ingested`, with every batch of the run in `Batches` |
| `Encode` | `Escape` |
| `Chunk` | `Parts` |
| `GetPath` | `Tokens` |

The properties the source promises are then proved about those functions.

**Inputs.** The tree-sitter parse, the file-system answers and the stores' replies are inputs:

- a `Source` record per path;
- a `SyntaxNode` tree;
- a script of replies in `Collection`.

## Model

| member | source | states |
|---|---|---|
| ChunkExtractor.GetLine | src/main.rs:61-63 | the line number of an offset is at most offset + 1 |
| ChunkExtractor.GetLineIsRow | src/main.rs:61-63 | get_line counts the newlines before the offset, plus one when the byte at the offset is itself a newline: a 0-based row that counts the start byte |
| ChunkExtractor.GetLineMonotonic | src/main.rs:61-63 | a later offset never has a smaller line |
| ChunkExtractor.Targets | src/main.rs:72-87 | every node the walk emits has one of the four target kinds |
| ChunkExtractor.TargetPathsExact | src/main.rs:81-87 | a path is emitted exactly when it leads to a target node with no target above it (the start node included) |
| ChunkExtractor.TargetPathsLocate | src/main.rs:81-87 | the emitted nodes are the nodes at those paths, one entry each |
| ChunkExtractor.TargetPathsOrdered | src/main.rs:81-85 | emitted paths are strictly increasing in preorder and child order |
| ChunkExtractor.LexLessNotNested | src/main.rs:81-87 | two paths in that order are never one inside the other, so no emitted node lies inside another |
| ChunkExtractor.TargetsDisjoint | src/main.rs:81-99 | in a tree whose children lie inside their parents and in order, the emitted byte ranges are disjoint and increasing |
| ChunkExtractor.TargetsEmittable | src/main.rs:89 | every emitted node's byte range lies within the text |
| ChunkExtractor.WalkTree | src/main.rs:65-99 | the walk only appends, one entry per emitted node in emission order: the node's bytes `text[start..end]` to docs, and the path with the get_line of its start to meta; earlier entries are unchanged |
| ChunkExtractor.WalkChildren | src/main.rs:81-86 | a non-target node appends its children's entries in child order |
| ChunkExtractor.Pending.Clear | src/main.rs:194-195 | both buffers become empty |
| Language.LanguageFor | src/main.rs:136-143 | cpp, cxx, cc, hpp, hxx and h give C++, c gives C, and every other text gives none, each as an if-and-only-if |
| Language.LanguageIsCaseSensitive | src/main.rs:136-143 | upper-case spellings are unknown languages |
| Language.Extension | src/main.rs:126-129 | the extension is the text after the file name's last dot; there is none when the name has no dot after its first character |
| Language.LastIndexOfAt | src/main.rs:126 | the last occurrence of a character is the one with no occurrence after it |
| Language.ExtensionOfSourceFile | src/main.rs:126-129 | src/main.c has extension c |
| Language.ExtensionIsAfterLastDot | src/main.rs:126-129 | a.tar.gz has extension gz |
| Language.ExtensionMissing | src/main.rs:126-129 | Makefile and .bashrc have no extension and are skipped |
| Ingest.Process | src/main.rs:107-187 | a file that fails to open or stat, or has no extension, is skipped. A processed file has equally many docs and metas, and a file of unknown language adds none |
| Ingest.Ids | src/main.rs:47-49 | a batch has one id per document |
| Ingest.RecordIds | src/main.rs:47-49 | the ids of a batch are pairwise distinct and each parses back to offset + i |
| Ingest.Ingested | src/main.rs:104-197 | between files fewer than 512 entries are pending, every batch sent inside the loop holds at least 512 entries, and the offset counts the records sent |
| Ingest.Batches | src/main.rs:188-202 | every batch of a run is non-empty, and all but the last hold at least 512 entries |
| Ingest.SentIsEverything | src/main.rs:104-202 | the records sent over a run are every entry of every processed file, in input order, with ids 0, 1, 2, … and no gap or repeat |
| Ingest.IngestedAccounts | src/main.rs:104-197 | records sent plus the pending buffers are every entry so far, numbered from 0 |
| Ingest.OneFileOneFlush | src/main.rs:188-196 | the threshold is checked per file, so one file yielding 512 or more entries onto an empty buffer is sent whole as one batch |
| Ingest.IngestedGrows | src/main.rs:107-197 | batches already sent stay a prefix of the run's batches |
| Ingest.Add | src/main.rs:33-59 | add sends the batch whose record i pairs id offset + i with the i-th metadata and document; the store records it only when it accepts it, and each call consumes one reply |
| Ingest.ProcessFile | src/main.rs:111-186 | the loop body up to the threshold check appends exactly what Process specifies, or nothing on a `continue` |
| Ingest.IndexOne | src/main.rs:107-197 | one pass appends the file's entries; when the file reaches the check with at least 512 pending, the batch is sent, the offset advances by its length, and the buffers are cleared |
| Ingest.FinalFlush | src/main.rs:199-202 | the pending entries are sent when there are any, and nothing is sent otherwise |
| Ingest.StepKeepsTracks | src/main.rs:107-197 | one pass of the loop either keeps the state equal to the plan's or stops at the run's first refused call |
| Ingest.FinishKeepsTracks | src/main.rs:199-206 | the final flush completes the run or is its first refusal |
| Ingest.IndexStep | src/main.rs:107-197 | an iteration against the plan keeps the loop invariant or leaves the store refused |
| Ingest.IndexFinish | src/main.rs:199-206 | the flush after the loop, against the plan |
| Ingest.Index | src/main.rs:101-207 | the store receives the run's batches in order, up to and excluding the first refused call. The run fails exactly when some call is refused, and each call consumes one reply |
| Ingest.Accepted | src/main.rs:191 | the number of calls that succeed before the first refusal, at most the number made |
| Query.EscapeChar | src/main.rs:242 | serde_json leaves a character alone exactly when it is not a quote, backslash or control character |
| Query.PlainEscapesToItself | src/main.rs:242 | a string of such characters is its own escape |
| Query.Assemble | src/main.rs:228-246 | it panics on a missing list, entry, path or u64 line, at the first in evaluation order. Otherwise it gives one record per position of the shorter of the last metadata and document lists, in order |
| Query.StoredPathComesBackQuoted | src/main.rs:93-96 | a path the ingester stores comes back in quotes and escaped, never equal to itself |
| Query.PlainPathComesBackInQuotes | src/main.rs:242 | src/a.c comes back as "src/a.c" with the quotes |
| Query.StoredMetaRoundTrip | src/main.rs:242-243 | read with as_str, the stored path and line come back exactly |
| Escaping.Replace | cxxrag-index/lib/IndexAction.cxx:27-33 | false and unchanged when from does not occur; otherwise true, with only the first occurrence replaced |
| Escaping.Find | cxxrag-index/lib/IndexAction.cxx:28 | std::string::find: the first occurrence, or none |
| Escaping.Escape | cxxrag-index/lib/IndexAction.cxx:35-48 | the escape is never shorter than its input |
| Escaping.Encode | cxxrag-index/lib/IndexAction.cxx:35-48 | Encode computes the per-character escape of backslash, quote and newline |
| Escaping.SubstsAreEscape | cxxrag-index/lib/IndexAction.cxx:37-47 | the three replacements in that order compose to the per-character escape |
| Escaping.QuotesFirstDoublesBackslash | cxxrag-index/lib/IndexAction.cxx:37-44 | in the other order, an escaped quote would have its own backslash doubled |
| Escaping.NewlineStep | cxxrag-index/lib/IndexAction.cxx:46-47 | each pass of the while loop removes one raw newline and keeps the eventual result, so the loop terminates |
| Escaping.NoNewline | cxxrag-index/lib/IndexAction.cxx:46-47 | when Replace finds no newline, none is left |
| Escaping.EscapeHasNoNewline | cxxrag-index/lib/IndexAction.cxx:46-47 | the encoded text holds no raw newline |
| Escaping.UnescapeEscape | cxxrag-index/lib/IndexAction.cxx:35-48 | decoding the three escapes recovers the input |
| Escaping.EscapeInjective | cxxrag-index/lib/IndexAction.cxx:35-48 | different inputs encode differently |
| Escaping.EscapeLength | cxxrag-index/lib/IndexAction.cxx:35-48 | the output is longer by the number of backslashes, quotes and newlines |
| Escaping.EscapeAppend | cxxrag-index/lib/IndexAction.cxx:35-48 | the escape works character by character |
| CodeChunks.KindCode | cxxrag-index/include/IndexAction.h:8-12 | the kind is written as 0, 1 or 2 |
| CodeChunks.KindCodeInjective | cxxrag-index/include/IndexAction.h:8-12 | different kinds are written differently |
| CodeChunks.LayoutIsObject | cxxrag-index/lib/IndexAction.cxx:50-63 | str writes "\t{\n", the eight members kind, name, filepath, start_line, end_line, signature, comment, body joined by ",\n", then "\n\t}" |
| CodeChunks.Values | cxxrag-index/lib/IndexAction.cxx:53-60 | one value text per key |
| CodeChunks.UnescapedNameBreaksOutput | cxxrag-index/lib/IndexAction.cxx:50-63 | str prints an object whose name member, for a name with quotes such as a literal operator, cannot be read back |
| CodeChunks.UnescapedPathChangesPath | cxxrag-index/lib/IndexAction.cxx:50-63 | str prints an object whose filepath member C:\new reads back as C:, a newline and ew |
| CodeChunks.QuotedNameDoesNotUnescape | cxxrag-index/lib/IndexAction.cxx:54 | a raw quote inside a string cannot be read back |
| CodeChunks.BackslashNReadsAsNewline | cxxrag-index/lib/IndexAction.cxx:55 | a raw backslash before n reads back as a newline |
| CodeChunks.FixedOutputReadsBack | cxxrag-index/lib/IndexAction.cxx:50-63 | the corrected str prints an object in which, with name and filepath encoded too, every text member reads back as exactly its text |
| CodeChunks.FindLastNotOf | cxxrag-index/lib/IndexAction.cxx:97 | the last position whose character is outside the set, with only set characters after it; none exactly when all characters are in the set |
| CodeChunks.Trimmed | cxxrag-index/lib/IndexAction.cxx:97-99 | the trim is a prefix. With some character outside ` \t\n\r{`, it ends with such a character and cuts only set characters; otherwise the string stays whole |
| CodeChunks.TrimmedIdempotent | cxxrag-index/lib/IndexAction.cxx:97-99 | trimming twice is trimming once |
| CodeChunks.TrimSignature | cxxrag-index/lib/IndexAction.cxx:97-99 | the find_last_not_of and erase compute the trim |
| CodeChunks.PrepareChunk | cxxrag-index/lib/IndexAction.cxx:77-111 | the visitor keeps kind, name, path and lines. A function's signature is trimmed only for functions, and then encoded; the body is encoded, and the comment is encoded or left empty |
| CodeChunks.IsChildOf | cxxrag-index/lib/IndexAction.cxx:9-25 | true exactly when both paths resolve and parent's components begin child's, so parent is child or one of its successive parent_path ancestors up to the root |
| Driver.Chunk | cxxrag-index/lib/main.cxx:15-33 | the nested loops compute `Parts`: no part at all for size 0, without reaching the division; otherwise exactly size parts that together are the input in order, part i holding \|src\| / size elements plus one for the first \|src\| % size parts |
| Driver.PartsCover | cxxrag-index/lib/main.cxx:15-33 | for size > 0, the parts are size consecutive pieces whose concatenation is the input, with the balanced lengths |
| Driver.NoWorkerIndexesNothing | cxxrag-index/lib/main.cxx:101 | as written, a thread count of 0 gives no part, so no file of a non-empty database is handed to a clang tool |
| Driver.Workers | cxxrag-index/lib/main.cxx:101 | the corrected worker count is positive and equals the thread count whenever that is known |
| Driver.SplitFiles | cxxrag-index/lib/main.cxx:100-101 | with the corrected worker count, every file of the database lands in exactly one part, in order |
| Driver.PartsBalanced | cxxrag-index/lib/main.cxx:20-22 | part lengths are non-increasing and differ by at most one |
| Driver.PartStartEnd | cxxrag-index/lib/main.cxx:18-30 | the parts' lengths add up to the input's length |
| Driver.CountTerms | cxxrag-index/lib/main.cxx:41-44 | nTerm is one more than the number of delimiters |
| Driver.SplitTerms | cxxrag-index/lib/main.cxx:49-52 | the getline loop yields the getline tokens |
| Driver.GetPath | cxxrag-index/lib/main.cxx:35-55 | an unset PATH gives no directory, and a set one gives its getline tokens on the platform's PATH_DELIM |
| Driver.IndexOf | cxxrag-index/lib/main.cxx:50 | the position where getline stops: the first delimiter, none exactly when there is none |
| Driver.TokenSplit | cxxrag-index/lib/main.cxx:49-52 | one getline call consumes its token and the delimiter after it, or the whole rest when no delimiter is left |
| Driver.TokensHaveNoDelimiter | cxxrag-index/lib/main.cxx:49-52 | no token holds the delimiter |
| Driver.TokensBound | cxxrag-index/lib/main.cxx:41-52 | there are at most nTerm tokens, one more than the delimiters |
| Driver.TokensJoin | cxxrag-index/lib/main.cxx:49-52 | joining the tokens with the delimiter rebuilds any non-empty text that does not end with the delimiter |
| Driver.GetlineEdgeCases | cxxrag-index/lib/main.cxx:49-52 | empty text gives no token, "a::b" gives an empty middle token, and "a:" gives no trailing empty token |
| Driver.WriteArray | cxxrag-index/lib/main.cxx:131-139 | the output is "[\n", the chunk texts with ",\n" only between neighbours, then "\n]" |
| Driver.EmptyArray | cxxrag-index/lib/main.cxx:131-139 | with no chunk the output is "[\n\n]" |

## Left out

- Embedding requests and the vector store are not modelled. The Ollama embedding requests, the Chroma tenant/database/collection bootstrap, the model pull and the mode selection in `main` of `src/main.rs` are left out. The store is a `Collection` that logs each accepted batch and answers from a reply script. The embedding vectors are not represented.
- Reading standard input, the async file open/stat/read, and the tree-sitter parse are inputs (`Source`, `SyntaxNode`). Specifically:
  - an I/O error on a standard-input line (`line?`) is not modelled;
  - a non-UTF-8 file read by `read_to_string` is modelled by the `readOk` flag.
- `String::from_utf8_lossy` and `to_string_lossy` are not modelled: documents are kept as bytes and paths as text.
- The `ext.to_str()` failure is not modelled: it cannot happen since the path came from a `String`.
- The whole-file embedding request built for a file of unknown language is not modelled: the loop builds it and drops it, so such a file adds no entry.
- Query.Assemble: the embedding of the question, the store query and `to_string_pretty` printing are left out. serde_json floats, arrays and objects are not among the `Json` values.
- The clang machinery of `IndexAction.cxx` is left out:
  - AST traversal;
  - `getSourceText`;
  - `getSpellingLineNumber`;
  - raw comments;
  - the choice of which declarations are visited.
- The visitor's inputs become parameters of `PrepareChunk`. The chunk is returned rather than pushed into the shared vector. The mutex-guarded global `Chunks` and `IndexAction`'s destructor are not modelled.
- CodeChunks.IsChildOf: `std::filesystem::canonical` is not modelled. A path is given as its canonical component list, or None when canonicalisation fails.
- Escaping.Encode: `std::regex_replace` is modelled by its effect, replacing every occurrence of one character. Encode does not escape tabs, carriage returns or other control characters, so the printed chunks are not strict JSON; the model keeps that.
- The OpenMP loop, the progress lines printed while chunks load, `ClangTool::run` and the `failed` flag of `main.cxx` are left out.
- `GetDefaultIncludePath`, the directory iteration and `getenv` are left out. `GetPath` takes the variable's value as an `Option` and the platform as a flag; `PathDelimiter` gives ':' on Unix and ';' elsewhere.
- Driver.WriteArray: the output stream is a class recording the text written; flushing is not modelled.
- CodeChunks.TrimSignature: the erase in place of a chunk's member is modelled on the string value.

## Findings

| source | as written | input that shows it | evidently intended | confidence | as-written member | corrected member |
|---|---|---|---|---|---|---|
| src/main.rs:242 | the query reads the path with `Value::to_string`, the JSON text of the value | a chunk stored with path src/a.c comes back with path "src/a.c", quotes included (a path with a backslash comes back escaped too) | read the stored string with `as_str`, so the path comes back as stored | not executed | Query.StoredPathComesBackQuoted | Query.StoredMetaRoundTrip |
| cxxrag-index/lib/IndexAction.cxx:54-55 | `CodeChunk::str` writes name and filepath raw between quotes, while the visitors `Encode` every other text | the name operator""_km ends its string early; the path C:\new reads back as C:, a newline and ew | encode name and filepath like the other texts | not executed | CodeChunks.UnescapedNameBreaksOutput | CodeChunks.FixedOutputReadsBack |
| cxxrag-index/lib/main.cxx:101 | `Chunk(files, std::thread::hardware_concurrency())` passes the raw thread count, which is 0 when it cannot be determined | a thread count of 0 gives `Chunk` an empty result, so the loop at main.cxx:108 indexes no file, main prints "[\n\n]" and returns 0 | split among at least one worker | not executed | Driver.NoWorkerIndexesNothing | Driver.SplitFiles |
