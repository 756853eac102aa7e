# zsign re-signing action: argument vector and binary choice

A Dafny model of the core of a GitHub Action that re-signs iOS apps by
running the `zsign` executable. The action reads its named inputs
(`app_path`, `output_path`, `prov`, `pkey`, `cert`, `adhoc`, ...) and turns
them into the ordered argument list handed to `zsign`
(`getZSignArguments`). It also picks which pre-built `zsign` binary to run
for the host platform and architecture (`getZSignPath`).

The model has these parts:

- `results.dfy`, module `Results`: `Option` and `Result`. A thrown
  `Error(message)` becomes `Err(message)`.
- `text.dfy`, module `Text`: JavaScript `split` with a one-character
  separator and `trim`, with their inverse and characterising lemmas.
- `arguments.dfy`, module `ZSignArguments`: the input map, the static
  input-to-flag table, the set of switch flags, and the builder.
  The builder is written twice. `ZSignArgs` is a pure function.
  `GetZSignArguments` mirrors the source's push-by-push loops, and its
  contract says it builds exactly what `ZSignArgs` describes.
- `argument_properties.dfy`, module `ArgumentProperties`: what a vector
  means. `Decode` reads a vector back into an `Invocation`: the app, the
  output, the profiles, and one `Setting` per table entry (`Unset`,
  `Enabled` or `Valued(v)`). `DecodeBuild` proves that building and then
  decoding gives back exactly the request the inputs describe. The same
  module proves the vector's shape: its prefix, the `-m` pairs, table
  order, its length, and which inputs it depends on.
- `binary_name.dfy`, module `ZSignBinary`: the choice of binary name.

`core.getInput` is modelled as a total lookup in a `map<string, string>`.
A name with no entry reads as `""`, and `""` means "not given". The map
holds the values as `getInput` returns them.

The model follows the code, including behaviour that looks surprising:

- `pkey` and `cert` go to `-k` and `-c` unchanged; each trimmed
  comma-separated piece of `prov` goes to `-m`. Nothing is base64-decoded
  and no files are staged.
- Empty and blank `prov` segments are not skipped. Each one still yields
  `-m ""` (`BlankSegmentsKept`, `SplitExample`).
- Any non-empty value turns a switch on, including `"false"`
  (`FalseTurnsSwitchOn`).
- The table maps an `output` input to `-o`, so `-o` can appear twice
  (`OutputFlagTwice`).
- The error messages are `Missing required input: app_path` and
  `Missing required input: output_path`, as in src/main.ts:97,103.

## Model

| member | source | states |
|---|---|---|
| ZSignArguments.ZSignArgs | src/main.ts:92-132 | Fails iff `app_path` or `output_path` is empty. An empty `app_path` wins, even when both are empty. On success the vector starts with `[app_path, "-o", output_path]` |
| ZSignArguments.GetZSignArguments | src/main.ts:71-133 | The source's sequence of pushes (required inputs, `prov` loop, table loop) yields exactly the `ZSignArgs` result, error cases included |
| ZSignArguments.PushProfiles | src/main.ts:108-114 | The `prov` loop appends one `-m` pair per piece, each carrying the trimmed piece, in order |
| ZSignArguments.PushTable | src/main.ts:116-130 | The table loop appends, entry after entry, the flag of each entry whose input is non-empty, and then the value unless the flag is a switch |
| ZSignArguments.ContributionShape | src/main.ts:118-128 | An entry contributes nothing iff its input is empty; otherwise its flag comes first, followed by the value exactly when the flag is not one of the six switches; never more than two arguments |
| ZSignArguments.TableArgs | src/main.ts:116-130 | Walking a table adds at most two arguments per entry |
| ZSignArguments.ProvSegments | src/main.ts:108-110 | An empty `prov` gives no segments. Otherwise there are commas + 1 segments, and joining them with commas restores `prov` |
| ZSignArguments.ProfileArgs | src/main.ts:110-113 | Segments give exactly two arguments each |
| ZSignArguments.ProfilePair | src/main.ts:111-113 | Pair `i` is `-m` followed by segment `i` trimmed |
| ZSignArguments.TableArgsAppend | src/main.ts:117-130 | Walking the table is compositional: the arguments for `t1 + t2` are those for `t1` followed by those for `t2` |
| ZSignArguments.ProfileArgsAppend | src/main.ts:111-113 | The pairs for `s1 + s2` are those for `s1` followed by those for `s2` |
| Text.Split | src/main.ts:110 | `split(',')` gives commas + 1 pieces, none of them containing a comma |
| Text.JoinSplit | src/main.ts:110 | Joining the pieces of a split with the separator restores the string |
| Text.SplitJoin | src/main.ts:110 | Splitting a join of separator-free pieces restores the pieces; empty pieces are kept |
| Text.TrimStart | src/main.ts:110 | The result is no longer than the input and does not start with whitespace |
| Text.TrimStartRemovesLeading | src/main.ts:110 | TrimStart keeps a suffix of its input, and everything it removes is whitespace |
| Text.TrimEnd | src/main.ts:110 | The result is no longer than the input and does not end with whitespace |
| Text.TrimEndRemovesTrailing | src/main.ts:110 | TrimEnd keeps a prefix of its input, and everything it removes is whitespace |
| Text.Trim | src/main.ts:110 | `trim()` never lengthens its argument, and its result neither starts nor ends with whitespace |
| Text.TrimIsInfix | src/main.ts:110 | What `trim()` keeps is a contiguous piece of the string, with only whitespace around it |
| Text.TrimUnique | src/main.ts:110 | Around a string with non-whitespace ends, `trim()` removes exactly the whitespace wrapped around it |
| Text.TrimIdempotent | src/main.ts:110 | Trimming twice is trimming once |
| ArgumentProperties.ArgTableLetters | src/main.ts:72-90 | Every table flag is two characters, and its second character is that entry's letter in `kcadfopbnrezlwt2q` |
| ArgumentProperties.ArgTableWellFormed | src/main.ts:72-90 | The table's flags are pairwise distinct, and none of them is `-m` |
| ArgumentProperties.TableArgsStartWithFlag | src/main.ts:117-129 | A non-empty table part starts with the flag of one of the table's entries |
| ArgumentProperties.DecodeTableArgs | src/main.ts:117-129 | Reading the table part back in declaration order recovers each entry's setting: unset, switched on, or its value |
| ArgumentProperties.DecodeProfileArgs | src/main.ts:108-114 | Reading the `-m` pairs back recovers the trimmed segments and leaves the table part untouched |
| ArgumentProperties.DecodeAssembled | src/main.ts:92-132 | A vector assembled from a well-formed table decodes to its app, output, profiles and settings |
| ArgumentProperties.DecodeBuild | src/main.ts:92-132 | Round trip: the built vector decodes to exactly the request the inputs describe |
| ArgumentProperties.SameVectorSameRequest | src/main.ts:92-132 | Inputs that both yield a vector, and yield the same one, have the same `Intended` invocation. `Intended` records which switches are present (not their values, so `"true"` and `"false"` are indistinguishable) and the trimmed `prov` pieces |
| ArgumentProperties.TableArgsDependOnKeys | src/main.ts:117-118 | The table part depends only on the values of the table's input names |
| ArgumentProperties.OnlyRelevantKeysMatter | src/main.ts:92-132 | Inputs that agree on `app_path`, `output_path`, `prov` and the table's names give the same result, whatever other names they hold |
| ArgumentProperties.OnlyEntrySet | src/main.ts:117-129 | With a single table input set, the table part is that entry's contribution alone |
| ArgumentProperties.NothingSet | src/main.ts:117-129 | With no table input set, the table part is empty |
| ArgumentProperties.TableArgsLength | src/main.ts:121-128 | An entry adds 0 arguments when its input is empty, 1 for a switch, and 2 otherwise |
| ArgumentProperties.VectorLength | src/main.ts:92-132 | The length is 3 + 2 x (number of `prov` segments) + the sum of the entries' costs |
| ArgumentProperties.ProfilePairAt | src/main.ts:108-114 | With `prov` given, for each of its commas + 1 segments, position `3 + 2i` is `-m` and the next position is segment `i` trimmed |
| ArgumentProperties.NoProfilesWithoutProv | src/main.ts:108-109 | With `prov` empty, the table part follows the output path directly, and no `-m` starts it |
| ArgumentProperties.TableEntryIn | src/main.ts:117-129 | Entry `j` lands right after what entries before it added. Its flag comes first, then its value. A switch flag is followed only by the end or a later entry's flag |
| ArgumentProperties.TableEntryAt | src/main.ts:117-129 | The same, located in the full vector, right after the `-m` pairs |
| ArgumentProperties.SingleEntryVector | src/main.ts:95-129 | With no `prov` and one table input set, the vector is the required prefix plus that entry's arguments |
| ArgumentProperties.BundleIdExample | src/main.ts:72-132 | `{app_path: a.ipa, output_path: out.ipa, bundle_id: com.x}` yields `[a.ipa, -o, out.ipa, -b, com.x]` |
| ArgumentProperties.FalseTurnsSwitchOn | src/main.ts:121-128 | `adhoc = "false"` emits `-a` alone, with no value after it |
| ArgumentProperties.OutputFlagTwice | src/main.ts:72-129 | With only `output` set besides the required inputs, the vector is `[a.ipa, -o, o.ipa, -o, x.ipa]` |
| ArgumentProperties.SplitExample | src/main.ts:110 | `"A,, B"` splits into three pieces, and the empty one is kept |
| ArgumentProperties.BlankSegmentsKept | src/main.ts:108-114 | A blank or empty `prov` segment still produces `-m` followed by `""` |
| ZSignBinary.BinaryName | src/main.ts:41-49 | Succeeds iff the platform is linux, darwin or win32. Otherwise the error is `Unsupported platform: <platform> <arch>`. The name chosen belongs to the requested platform, and it is the Apple-silicon build iff the host is darwin/arm64 |
| ZSignBinary.EveryBinaryIsReachable | src/main.ts:41-49 | Each of the four shipped binaries is chosen for some platform and architecture |
| ZSignBinary.ArchOnlyMattersOnDarwin | src/main.ts:41-46 | On linux and win32 the architecture does not affect the choice |

## Left out

- `run()` is left out: `@actions/exec`, `chmodSync`, `core.info`, and `core.setFailed` with its `❌` message prefix. These are process and logging plumbing.
- `checkFileExists` is left out because it queries the filesystem.
- The path joining in `getZSignPath` is left out: `fileURLToPath`, `path.dirname`, `path.join` and the log line. Only the binary name is modelled.
- `core.getInput` is modelled as a map lookup. Reading the value from an environment variable and trimming it by default happen before the map and are not modelled.
- Text.Trim: the whitespace set is ECMAScript's WhiteSpace and LineTerminator characters, with the space separators of Unicode 15. Later Unicode versions could change this.
- Text.Trim: Dafny strings are sequences of Unicode scalar values, while JavaScript strings are UTF-16. Lone surrogates therefore cannot be represented.
- Secret staging is not modelled, because the code has none: no base64 decoding, no temporary directory, no cleanup.
