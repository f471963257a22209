# anylang: JSON language files to Rust constants, modelled in Dafny

anylang is a Rust procedural macro. It reads JSON language files and turns
each file into a tree of Rust declarations. The whole file becomes one
module `lang`. An object held under a key becomes a `pub mod` named by the
key. A scalar member becomes a `pub const` of type `&str`. An array member
becomes a `pub const` of type `[&str; N]`. The objects of a root-level
array get no module of their own: their members all go into `lang`.

This project models the pipeline behind that macro in four parts:

- **Value classifier and token builder** (`TokenVariant`, `from_str`,
  `from_iter`) in `tokens.dfy`, with the literal writers and readers in
  `literal.dfy` and the JSON text of a value in `json.dfy`. A string field
  keeps its text. A number is carried as the text the JSON parser gives
  for it. A boolean becomes `true`/`false`. A `null` field becomes the empty string. Inside an array,
  every element that is not a string becomes its compact JSON text, so
  `null` there is `"null"`.
- **Namespace builder** (`parse_json`) in `build.dfy`. The mutable
  `JsonNamespace` is a class (`namespace.dfy`), and `ParseJson` and its
  helpers push onto its `tokens` field in loops, as the Rust code does.
  Each method is proved against the specification function `Walk`. `Walk`
  records what was pushed and the error that stopped the walk, if any.
  `build_props.dfy` and `structure.dfy` prove what `Walk` promises.
- **Emitter** (`From<TokenJson>`, `From<JsonNamespace>`, `get_type`,
  `into_data`) in `emit.dfy` and `ident.dfy`. Emitted declarations are
  records (`Item`). `Render` writes them out as text.
- **File dispatch** (`parse_from_file`) in `dispatch.dfy`. The path is a
  string. What opening and parsing the file gives is a parameter
  (`Document`). File name, prefix and extension follow Rust's `Path`
  rules for `/`-separated paths.

Error messages and the `[anylang:parse:ERROR] ` prefix are in
`errors.dfy`. `scenarios.dfy` follows the repository's own test files from
path to emitted module.

The repository holds two copies of this code: `src/parse.rs`, which is
compiled, and `src/parser/mod.rs` with `src/parser/json.rs`, which is not.
The two copies do the same thing line for line, and one model covers both.
The table below cites whichever copy shows a property most directly. The
corresponding places in the other copy are:

| item | src/parse.rs | src/parser/ |
|---|---|---|
| `TokenVariant`, `into_data`, `get_type` | 4-38 | mod.rs:9-43 |
| `error!` prefix | 41-45 | mod.rs:46-50 |
| `from_str`, `from_iter` | 47-61 | mod.rs:52-66 |
| `TokenJson` and its emitter | 69-105 | json.rs:5-41 |
| `JsonNamespace`, `new`, its emitter | 107-147 | json.rs:43-83 |
| `File` and its emitter | 149-161 | mod.rs:74-79, json.rs:85-90 |
| `parse_json` | 163-272 | json.rs:92-201 |
| `parse_from_file` | 274-333 | mod.rs:81-140 |

## Model

| member | source | states |
|---|---|---|
| Tokens.ScalarVersusElement | src/parse.rs:194-222 | A scalar field's text and an array element's text agree except on `null`: the field holds `""` and the element holds `null` |
| Tokens.GetTypeLength | src/parser/mod.rs:31-43 | The type is `&str` exactly for a single value; an array's type `[&str; N]` reads back N equal to the number of items |
| Tokens.DataRoundTrip | src/parse.rs:11-38 | Reading back the type and the value text of any token data gives that data again: the same strings, as many, in the same order |
| Literal.ReadQuoted | src/parse.rs:13-16 | The string literal written for a single value reads back as exactly that string, and text after it is left untouched |
| Literal.EscapePlain | src/parse.rs:14 | A string of printable ASCII characters other than the double quote and the backslash is written inside the quotes unchanged |
| Literal.ReadArrayOfLiteral | src/parser/mod.rs:22-27 | The array literal reads back as the same strings, as many as were written, in the same order |
| Literal.DecimalRoundTrip | src/parse.rs:36 | The length written into `[&str; N]` reads back as the length |
| Ident.ToUpper | src/parse.rs:97 | Upper-casing keeps the length, turns each lower-case letter into its capital and keeps every other character where it was |
| Ident.NoLowerAfterUpper | src/parse.rs:97 | No lower-case letter is left in an upper-cased name |
| Ident.ToUpperIdempotent | src/parse.rs:307 | Upper-casing twice equals upper-casing once, so a scalar root's constant name is the file prefix upper-cased once |
| Errors.PrefixedInjective | src/parser/mod.rs:46-50 | The prefix hides nothing: two prefixed messages are equal exactly when the messages behind it are |
| Errors.DocumentErrorUnprefixed | src/parse.rs:190 | The message of an error about the document is no prefixed message, whatever text follows the prefix |
| Errors.PrefixMarksFileErrors | src/parse.rs:41-45 | The file errors carry the prefix and the document errors do not; the missing-extension message is "A file with some extension was expected" |
| Namespace.JsonNamespace.Default | src/parse.rs:107-112 | The default namespace has no name and no entries |
| Namespace.JsonNamespace.New | src/parse.rs:114-127 | A new namespace has the key as its name, as given, and no entries |
| Namespace.JsonNamespace.Push | src/parse.rs:178 | Pushing appends one entry at the end and changes nothing else |
| Builder.FirstObject | src/parse.rs:183-192 | Gives the index of the first object element of an array field, or its length when there is none |
| Builder.ClassifyArray | src/parse.rs:180-204 | An array field succeeds exactly when no element is an object; then it yields one text per element, in order; otherwise the error names the first object element |
| Builder.CollectArray | src/parser/json.rs:109-133 | The loop over an array field's elements gives exactly what `ClassifyArray` specifies |
| Builder.WalkMembersStops | src/parse.rs:171-176 | Once a member has failed, the members after it change nothing: the `?` returns at once |
| Builder.WalkRootArrayStops | src/parse.rs:234-241 | Once a root-array element has failed, the elements after it change nothing |
| Builder.ParseMember | src/parser/json.rs:101-158 | One member appends exactly its `WalkMember` entries to the namespace and returns its outcome; the namespace's name is untouched |
| Builder.ParseObject | src/parse.rs:170-232 | The loop over an object's members appends exactly the `WalkMembers` entries and returns its outcome |
| Builder.ParseRootArray | src/parser/json.rs:162-173 | The loop over a root array walks each object into the same namespace and fails on the first element that is not an object |
| Builder.ParseJson | src/parse.rs:163-272 | `parse_json` appends exactly the entries `Walk` gives, keeps the namespace's name, and returns `Walk`'s outcome |
| BuildProperties.WalkMemberEntry | src/parser/json.rs:101-158 | A member that succeeds pushes exactly one entry, the one its key and value call for |
| BuildProperties.ObjectEntries | src/parser/json.rs:99-160 | A built object has one entry per member, in member order, with no merging of colliding keys: a nested namespace under the key as given, an array constant or a scalar constant under the key |
| BuildProperties.WalkMemberFailurePushesNothing | src/parser/json.rs:102-133 | A member that fails pushes nothing: a nested namespace or an array constant is pushed only after its own success |
| BuildProperties.ObjectFailureKeepsPrefix | src/parse.rs:171-231 | A failing object fails at some member k; the namespace then holds exactly the entries of the members before k, and the error is member k's |
| BuildProperties.WalkSucceedsIff | src/parse.rs:169-269 | A walk succeeds exactly on well-formed values |
| BuildProperties.WalkMemberSucceedsIff | src/parse.rs:172-230 | A member succeeds exactly when it is well formed: a nested object that is itself well formed, an array with no object element, or a scalar |
| BuildProperties.WalkMembersSucceedIff | src/parse.rs:170-232 | An object's members succeed exactly when every member is well formed |
| BuildProperties.WalkRootArraySucceedsIff | src/parse.rs:233-244 | A root array succeeds exactly when every element is a well-formed object |
| BuildProperties.BuildSucceedsIffWellFormed | src/parser/json.rs:92-201 | The build succeeds exactly on well-formed documents, whatever the file name |
| BuildProperties.WalkMembersAppend | src/parse.rs:171 | Walking the members `a + b` is walking `a`, then `b` |
| BuildProperties.RootArrayMergesObjects | src/parse.rs:233-244 | A root array of objects is walked exactly as one object holding all their members in order: no level for the array, and the same entries even on failure |
| BuildProperties.RootArrayFirstNonObject | src/parser/json.rs:162-173 | After well-formed leading objects, the first element that is not an object is the error |
| BuildProperties.ArrayFieldErrorSpan | src/parse.rs:183-192 | An array field holding an object fails on its first object element: the error names that element, is attached to its JSON text, carries "Everything except Object was expected" and pushes nothing |
| BuildProperties.ScalarRootIsOneConstant | src/parser/json.rs:174-197 | A bare scalar document is one constant named by the file name passed in, holding the scalar's text |
| Emit.EmitEntries | src/parser/json.rs:72-75 | One item per entry, each the entry emitted, in push order |
| Emit.EmitTokenDecodes | src/parse.rs:90-105 | A token becomes a constant named with its name upper-cased, whose type and value read back as the token's data; `&str` exactly for a single value |
| Emit.RenderAllAppend | src/parser/json.rs:72-80 | The text of the items `a + b` is the text of `a` followed by the text of `b`, so a module's text lists its items in order |
| Emit.EmitNamespaceShape | src/parser/json.rs:65-83 | A namespace becomes a module named `lang` when unnamed and by its own name otherwise, with one item per entry in order: a module per nested namespace, and per token a constant that reads back as the token |
| Structure.WalkCounts | src/parse.rs:169-269 | A successful walk pushes one constant per member that is not an object (an array member is one constant) and one namespace per nested object |
| Structure.EmitNamespaceCounts | src/parse.rs:129-147 | Emission gives one constant per token and one module per namespace, plus the module itself |
| Structure.OneConstantPerLeaf | src/parse.rs:163-272 | For an accepted document, the root module holds one constant per member that is not an object (an array member is one constant) and one module per nested object |
| Dispatch.FileName | src/parser/mod.rs:82-95 | The file name of a path is a non-empty name with no `/`, and neither `.` nor `..` |
| Dispatch.FilePrefix | src/parser/mod.rs:82-83 | The prefix starts the file name and stops at its first dot, a dot in the first place not counting |
| Dispatch.Extension | src/parser/mod.rs:97 | The extension follows the file name's last dot, that dot not being the first character; with no extension, no dot follows the first character |
| Dispatch.TrailingSlashKeepsName | src/parser/mod.rs:82-95 | A trailing `/` does not change the file name |
| Dispatch.TrailingDotKeepsName | src/parser/mod.rs:82-95 | A trailing `/.` does not change the file name |
| Dispatch.TrailingParentHasNone | src/parser/mod.rs:82-95 | A path ending in `/..` names no file |
| Dispatch.RootHasNone | src/parser/mod.rs:82-95 | Neither the empty path nor `/` names a file |
| Dispatch.FileNameOfJoin | src/parser/mod.rs:82-95 | The file name of `dir/name` is `name`, for any directory part |
| Dispatch.PrefixAndExtension | src/parser/mod.rs:82-97 | Prefix and extension agree: the prefix stops at a dot no later than the dot before the extension; a name with no extension and no leading dot is its own prefix |
| Dispatch.StemAndExtension | src/parser/mod.rs:82-99 | `stem.ext` splits back into exactly `stem` and `ext` |
| Dispatch.LeadingDotOnly | src/parser/mod.rs:134-139 | A name whose only dot leads has no extension and is its own prefix |
| Dispatch.ParseFromFile | src/parse.rs:274-333 | The early returns on the path, then a default root filled by `ParseJson`, give exactly `FromFile` |
| Dispatch.NoFileNameFails | src/parser/mod.rs:82-95 | A path fails with the no-file-name error exactly when it names no file, and that error carries the path as given |
| Dispatch.NoExtensionFails | src/parser/mod.rs:134-139 | The result is the missing-extension error exactly when the file name has no extension, and its message is the prefixed "A file with some extension was expected" |
| Dispatch.BuildErrorIsFromWalk | src/parse.rs:306-307 | A failed build never gives a file error |
| Dispatch.OtherExtensionIsEmptyLang | src/parser/mod.rs:120-125 | Any extension other than `json` gives Ok with the empty default root, emitted as an empty `lang`, whatever the document |
| Dispatch.FailedWalkDropsRoot | src/parse.rs:306-307 | When the build of a `.json` document fails, the result is that error alone and the partly filled root is dropped |
| Dispatch.ScalarFileEntry | src/parser/mod.rs:113-114 | A `.json` scalar document builds from a default root into one token named by the upper-cased prefix |
| Dispatch.RootOfOneToken | src/parse.rs:157-161 | A root holding one token is emitted as `lang` holding that token's constant |
| Dispatch.ScalarFileIsOneConstant | src/parse.rs:245-268 | A `.json` scalar file is `mod lang` with one `&str` constant, named by the prefix upper-cased once, reading back as the scalar's text |
| Scenarios.EnglishBuild | tests/test.rs:37-47 | The English document, a root array of three objects, builds into `ping`, `foo`, `dummy` and `rust` side by side in the root |
| Scenarios.EnglishFile | tests/test.rs:37-47 | The English file is `lang::PING`, `lang::FOO`, `lang::dummy::SOME` = ["none", "or", "0"], an empty `lang::rust::IS` and `lang::rust::good::TRUE` = ["1", "true"] |
| Scenarios.NullFile | tests/test.rs:49-54 | A file holding `null` gives an empty `lang::EN_UK` |
| Scenarios.BigNumberFile | tests/test.rs:56-61 | A file holding `1e37` gives `lang::RU_BY` = "1e37" |
| Scenarios.SmallNumberFile | tests/test.rs:63-68 | A file holding `228.01` gives `lang::DE_DE` = "228.01" |
| Scenarios.BooleanFile | tests/test.rs:70-75 | A file holding `false` gives `lang::FR_FR` = "false" |
| Scenarios.ObjectInArrayField | src/parse.rs:183-192 | An object inside an array field stops the build, naming that object |
| Scenarios.TextFile | src/parse.rs:313-318 | A `.txt` file gives an empty `mod lang` whatever its contents |
| Scenarios.HiddenFile | src/parse.rs:327-332 | `.hidden` has no extension and is refused |

The test files' JSON documents are not part of this model. The documents
in `scenarios.dfy` are built from what `tests/test.rs` asserts about the
emitted constants.

## Left out

- Reading the file and parsing JSON (`fs::File::open`, `serde_json::from_reader`): their outcome is the `Document` parameter. A number is carried as the text the parser gives for it. serde_json's `Number` display keeps the literal as written only with its `arbitrary_precision` feature; otherwise `1.50` becomes `1.5`.
- How `proc_macro2`, `syn` and `quote` build token streams: emitted declarations are `Item` records, and `Render` gives them a fixed spacing that is not the token printer's.
- `syn::Ident::new` panicking on a name that is not a Rust identifier: not modelled; any name is accepted.
- Ident.ToUpper: the ASCII fold only; Rust's Unicode `to_uppercase`, which can change a string's length, is not modelled.
- Literal.EscapePlain, Literal.EscapeChar: `\0`, `\t`, `\r`, `\n`, `\\` and `\"` are escaped as the literal printer does; other control and non-printable characters, which it writes as `\u{…}`, stand as they are.
- Errors.Message: the root-array error ends with serde_json's debug rendering of the offending value; the model keeps the value in the error but leaves that text out.
- Dispatch.FileName: Unix paths only; Windows prefixes and `\` separators are not modelled. Its own contract gives only the shape of a file name; which component it is follows from the lemmas about `dir/name`, trailing `/`, `/.`, `/..`, the empty path and `/`.
- The directory scan and macro arguments of `include_json_dir` (`src/lib.rs`), and `src/macro.rs`: I/O and macro plumbing.
- The "No one feature was choosed!" error in `parse_from_file`: unreachable, since both branches before it return.
- Builds without the `json` feature: the model is the `json` build.
- Object key order: an object is a sequence of members in the order the JSON parser yields them; which order that is depends on a serde_json feature.
- Errors.Span: the array-field error is attached to the offending element's JSON text; the key is not part of the error.
