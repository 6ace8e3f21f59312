# bevy-fusabi in Dafny

A model of the core of bevy-fusabi, the Bevy plugin that loads Fusabi scripts as assets and runs them. The model covers three parts:

- **The script asset** (`Asset`): a `FusabiScript` is a name plus serialized bytecode. `ToChunk` deserializes the bytecode and reports a failure as an error message.
- **The asset loader** (`Loader`): it turns a path and the file's bytes into a script or a `LoaderError`. A `.fzb` file is stored byte for byte. Any other file is decoded as UTF-8, then lexed, parsed and compiled, then serialized. The first stage that fails names the error. The script's name is the file stem, or `"unknown"`.
- **The runner** (`Runner`): `RunScript` trackers hold a handle and an `executed` flag. `RunScripts` is one tick of the `run_scripts` system. It updates the trackers in place and only reads the asset store. A pending tracker becomes executed only when three things hold: its asset is loaded, its bytecode deserializes, and a fresh VM runs it without error. Any failure leaves the tracker pending for the next tick.

The Fusabi lexer, parser, compiler, bytecode codec and VM belong to other crates. `Fusabi.Capabilities` holds them as arbitrary function values, and every operation that needs them takes that record as a parameter. So every result proved here holds whatever those crates compute. Each VM execution uses a fresh `Vm`, so no state carries over from earlier runs. What a script computes may still depend on the host: its natives, the clock, resource limits. So one record describes one moment, and the lemmas over several ticks take a `Runner.Round` per tick, each with its own record and its own asset store. These crates do not render their errors themselves; the model delivers them as text already.

The standard-library behaviour that the loader depends on is modelled as well:
- UTF-8 validation as RFC 3629 defines it (`Utf8Codec`), for `String::from_utf8` and `OsStr::to_str`. Decoding and encoding are proved inverse in both directions.
- `Path::file_name`, `file_stem` and `extension` on Unix byte paths (`Paths`).

The link between `serialize_chunk` and `deserialize_chunk` cannot be checked here. It is stated as the predicate `Fusabi.CodecRoundTrip` and used only as a hypothesis.

The code has a single boolean, never cleared, and no reload handling. The model follows the code. A trap leaves the tracker pending, so the script is retried on every tick; no Failed state is recorded.

## Model

| member | source | states |
|---|---|---|
| `Asset.New` | src/asset.rs:30-32 | the script holds exactly the name and bytecode it was given |
| `Asset.NewFromFields` | src/asset.rs:13-19 | every script is the one `new` builds from its own name and bytecode |
| `Asset.ToChunk` | src/asset.rs:36-39 | under the codec contract, a script whose bytecode is the serialization of a chunk deserializes to that chunk |
| `Asset.ToChunkIgnoresName` | src/asset.rs:36-38 | `to_chunk` depends on the bytecode alone: scripts with equal bytecode and different names give the same result |
| `Asset.ToChunkOfSerialized` | src/asset.rs:36-39 | under the codec contract, a script holding serialized bytecode deserializes to the chunk that was serialized |
| `Utf8Codec.Decode` | src/loader.rs:55 | the empty input decodes to the empty string; decoded text has at most one character per byte and at least one per four bytes |
| `Utf8Codec.DecodeEncode` | src/loader.rs:55 | every string's UTF-8 encoding decodes back to that string |
| `Utf8Codec.EncodeDecode` | src/loader.rs:55 | bytes that decode are exactly the encoding of the decoded string |
| `Utf8Codec.DecodeFailsIffNotEncoding` | src/loader.rs:55 | decoding fails exactly when no string encodes to the bytes |
| `Utf8Codec.DecodeInjective` | src/loader.rs:39 | two byte sequences that decode to the same text are equal |
| `Paths.SplitLast` | src/loader.rs:39-43 | splitting at the last separator gives a separator-free tail and a prefix that, rejoined with the separator, is the input |
| `Paths.FileName` | src/loader.rs:40-42 | a path's file name, when there is one, is a non-empty component without separators that is neither `.` nor `..` |
| `Paths.NoFileName` | src/loader.rs:40-44 | the empty path, `.`, `/`, `..` and any path ending in `/..` have no file name, so their script is named `"unknown"` |
| `Paths.FileNameOfJoin` | src/loader.rs:40-42 | a valid name, alone or appended to any directory, is the file name of the result |
| `Paths.FileNameIgnoresTrailing` | src/loader.rs:40-42 | a trailing `/` or `/.` does not change the file name |
| `Paths.FileStem` | src/loader.rs:40-43 | a path has a stem iff it has a file name, and the stem is a non-empty leading part of that name |
| `Paths.Extension` | src/loader.rs:39 | with an extension the file name is stem, dot, extension, the extension dot-free; without one the stem is the whole file name |
| `Paths.StemExtensionOf` | src/loader.rs:39-43 | a file name made of a non-empty stem, a dot and a dot-free extension splits back into that stem and extension |
| `Paths.NoDotNoExtension` | src/loader.rs:39 | a file name without a dot has no extension and is its own stem |
| `Loader.Extensions` | src/loader.rs:64-66 | the loader claims exactly two extensions, `fsx` and `fzb` |
| `Loader.ExtensionText` | src/loader.rs:39 | a UTF-8 extension gives the text whose bytes it is; no extension or a non-UTF-8 one gives `""` |
| `Loader.ScriptName` | src/loader.rs:40-45 | the name is text whose UTF-8 bytes are the file stem; with no file name or a non-UTF-8 stem it is `"unknown"` |
| `Loader.CompileSource` | src/loader.rs:70-86 | the first failing stage's own error comes back wrapped as `Lexer`, `Parser` or `Compiler`; success iff all three stages succeed, with the compiler's chunk |
| `Loader.LexFailureStops` | src/loader.rs:71-74 | after a lexer failure, the parser and compiler have no influence on the outcome |
| `Loader.ParseFailureStops` | src/loader.rs:76-79 | after a parser failure, the compiler has no influence on the outcome |
| `Loader.BytecodeFor` | src/loader.rs:50-59 | with extension `fzb` the bytecode is the input bytes unchanged and never an error; errors arise only on the source branch and are never `Io`; a source-branch result is the serializer's output for the compiled, UTF-8-decoded bytes |
| `Loader.Load` | src/loader.rs:33-62 | the load succeeds iff the bytecode for the path's extension can be produced, giving the script named `ScriptName(path)` holding it, and otherwise fails with that error; a path whose extension text is `fzb` loads as `New(name, bytes)`; errors never come from `fzb` files and are never `Io` |
| `Loader.FzbExactly` | src/loader.rs:50 | the bytecode branch is taken iff the extension's bytes are exactly `fzb` (case-sensitive) |
| `Loader.FzbIgnoresCapabilities` | src/loader.rs:50-52 | loading an `fzb` file does not depend on the lexer, parser, compiler or serializer |
| `Loader.SourceNotUtf8` | src/loader.rs:55 | on the source branch, the result is a `Utf8` error carrying the bytes iff they encode no text |
| `Loader.SourcePath` | src/loader.rs:53-58 | for UTF-8 source: a failing compile stage's error is returned, a serializer failure gives `Bytecode`, otherwise the serializer's bytes are the result |
| `Loader.LoadNamedFile` | src/loader.rs:39-45 | a file `<dir>/<stem>.<ext>` loads as a script named `<stem>`, stored verbatim when `<ext>` is `fzb` |
| `Runner.AttemptOf` | src/runner.rs:24-54 | an executed tracker is skipped; otherwise a missing asset, a deserialization failure and a trap are told apart in that order, each with its own error, and the attempt runs iff the script runs cleanly |
| `Runner.Step` | src/runner.rs:24-55 | the handle is kept; the flag is set iff it already was or the script is loaded, deserializes and executes cleanly; an executed or unresolved tracker is unchanged |
| `Runner.ChunkFailureSkipsVm` | src/runner.rs:51-53 | when deserialization fails the attempt is `ChunkFailed`, the VM has no influence, and the tracker stays pending |
| `Runner.Tick` | src/runner.rs:23-56 | a tick maps each tracker independently through `Step`, keeping their number and order |
| `Runner.TickSplits` | src/runner.rs:23 | ticking a concatenation is ticking each part, so each tracker's outcome does not depend on its position |
| `Runner.TickIdempotent` | src/runner.rs:24-26 | a second tick against the same store, with the same capabilities, changes nothing |
| `Runner.TickAllPointwise` | src/runner.rs:23-56 | over any number of ticks, each tracker evolves on its own |
| `Runner.FinalMonotone` | src/runner.rs:43 | across ticks, whatever each tick's store and capabilities, the handle never changes and an executed tracker stays as it is |
| `Runner.ExecutedIffSomeTickRuns` | src/runner.rs:30-48 | after a run of ticks a tracker is executed iff it already was or its script ran cleanly in one of the rounds, each with its own store and capabilities |
| `Runner.TrappingScriptRetried` | src/runner.rs:45-48 | a script that traps on every tick is attempted and traps on each, and stays pending |
| `Runner.AtMostOneSuccess` | src/runner.rs:41-44 | successful executions plus the initial flag equal the final flag, so each tracker's script completes at most once |
| `Runner.RunScript.constructor` | src/runner.rs:13-17 | a tracker holds the handle and flag it is created with |
| `Runner.RunScripts` | src/runner.rs:19-57 | one tick in place: handles unchanged; each flag becomes old flag or clean run; the trackers end as `Tick` of their old values |
| `Pipeline.SourceScriptRuns` | examples/load_script.rs:33-37 | under the codec contract, a script whose bytecode came from the source branch deserializes to the compiled chunk, and a pending tracker bound to it runs iff that chunk executes cleanly |
| `Pipeline.BytecodeScriptRuns` | src/runner.rs:30-43 | an `fzb` script hands the file's bytes straight to the deserializer, and its tracker runs iff they deserialize and execute cleanly |

## Left out

- Reading the file (`read_to_end`, src/loader.rs:47-48): asynchronous I/O. `Load` takes the bytes already read, so the `Io` error variant is declared but never produced.
- The `println!` logging in the runner: output only. The `Attempt` datatype names the case each log line reports.
- The internals of the Fusabi lexer, parser, compiler, codec and VM: other crates, modelled as arbitrary functions. Their error values appear only as text, and the value a script returns is not inspected.
- The `Utf8` error variant keeps the rejected bytes but not `FromUtf8Error`'s position of the first invalid byte.
- Windows path prefixes and separators are not modelled; paths are Unix byte strings.
- `FusabiHeader` (src/asset.rs:23-27): declared but never used.
- Plugin wiring and system registration (src/lib.rs, src/runner.rs:7-11): framework glue with no logic.
- Bevy's ECS query and asset storage become a sequence of distinct tracker objects and a read-only map from handle to script.
- `to_chunk` and `compile_source` are Dafny functions, so repeated calls giving the same result and not modifying the script hold by construction; no separate lemma states it.
- Generation counters, a Failed state and a reload coordinator: not present in the code.
