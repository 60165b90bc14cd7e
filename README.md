# Guide-directory search of figma-mcp-mini's document tools

The document tools of figma-mcp-mini look for guide files in a list of
candidate directories. `buildCandidateDirs` builds that list in this order:

1. the `GUIDES_DIR` override captured when the module loads, if it is truthy;
2. the value of `GUIDES_DIR` at the time of the call, if it is truthy;
3. the `guides`, `guides/instructions` and `context/guides` directories under
   the working directory;
4. the same three directories under the module's own directory and under each
   of its ancestors. This walk covers at most 8 levels and stops once
   `dirname` returns its argument unchanged, which happens at the filesystem
   root.

Finally it removes duplicates with an insertion-ordered `Set`, which keeps the
first occurrence of each string.

The model has four modules:

- `Wrappers`: `Option`, for environment values that may be unset.
- `Paths`: absolute, normalised POSIX paths as sequences of segments. The root
  is the empty sequence, and `Dirname` drops the last segment. `Render` gives
  the string that Node prints for a path ("/" for the root, "/a/b"
  otherwise). `Resolve(base, rel)` is the rendered concatenation.
  `RenderInjective` proves that equal strings mean equal paths.
- `InsertionOrder`: the deduplication. `Dedupe` builds its result by repeated
  `Add`, in the same way that `new Set(...)` followed by a spread does.
  Lemmas prove no duplicates, membership in both directions, first-occurrence
  order, and how deduplication behaves with appended and repeated values.
- `DocumentTools`: the search.
  - `BuildCandidateDirs` is the imperative version. It pushes onto a growing
    list, runs a counted `while` loop that leaves early when the rendered
    `dirname` equals the rendered current directory, and deduplicates at the
    end.
  - `Candidates` and `CandidateDirs` are the functions that specify it.
  - The lemmas state the properties of the list.

Candidates are strings, as in the source: the raw override and environment
strings are pushed unchanged, and the spots are rendered paths. So an
override that spells out a spot's path is recognised as a duplicate of that
spot.

## Model

| member | source | states |
|---|---|---|
| DocumentTools.BuildCandidateDirs | src/talk_to_figma_mcp/tools/document-tools.ts:15-46 | The loop pushes exactly the candidates of `Candidates` in push order, leaving at the root or after 8 iterations. The result is their deduplication `CandidateDirs`. It has no duplicates and holds exactly the pushed values, at most 29 of them. A truthy override is its first element. |
| DocumentTools.CandidateDirsMembers | src/talk_to_figma_mcp/tools/document-tools.ts:16-45 | A string is in the result if and only if it is one of: the truthy override, the truthy environment value, a working-directory spot, or a spot of an ancestor `dirname`^i(fileDir) with i below the number of iterations. |
| DocumentTools.CandidateDirsDistinct | src/talk_to_figma_mcp/tools/document-tools.ts:45 | The result has no duplicates. |
| DocumentTools.CandidateDirsBounded | src/talk_to_figma_mcp/tools/document-tools.ts:18-45 | Exactly \|override\| + \|env\| + 3 + 3·min(depth+1, 8) values are pushed, so the result has at most 2 + 3 + 3·8 = 29 entries. |
| DocumentTools.OverrideComesFirst | src/talk_to_figma_mcp/tools/document-tools.ts:19-45 | A truthy override is the first entry of the result and appears at no other position. |
| DocumentTools.RepeatedEnvIgnored | src/talk_to_figma_mcp/tools/document-tools.ts:13-45 | When the environment value equals the override (the override is read from GUIDES_DIR), the result is the same as with no environment value, so that path appears once. |
| DocumentTools.FalsyOverrideIgnored | src/talk_to_figma_mcp/tools/document-tools.ts:19 | An unset or empty override pushes nothing: the candidates are those with no override. |
| DocumentTools.FalsyEnvIgnored | src/talk_to_figma_mcp/tools/document-tools.ts:22 | An unset or empty environment value pushes nothing. |
| DocumentTools.EmptyValuesIgnored | src/talk_to_figma_mcp/tools/document-tools.ts:18-38 | With both values empty, the candidates are just the working-directory spots followed by the walk up. |
| DocumentTools.SpotsDistinct | src/talk_to_figma_mcp/tools/document-tools.ts:25-29 | The three spots under one directory are three different strings. |
| DocumentTools.WorkingDirectorySpotsInOrder | src/talk_to_figma_mcp/tools/document-tools.ts:24-45 | When neither value names a working-directory spot, the three spots come directly after the deduplicated override and environment value, in the order guides, guides/instructions, context/guides. |
| DocumentTools.WorkingDirectoryBeforeWalkUp | src/talk_to_figma_mcp/tools/document-tools.ts:24-45 | A working-directory spot comes before every walk-up entry that was not already pushed earlier. |
| DocumentTools.WalkUpLength | src/talk_to_figma_mcp/tools/document-tools.ts:31-42 | The walk up from a directory of depth d with n iterations allowed runs min(d+1, n) iterations and pushes three values in each. |
| DocumentTools.WalkUpIteration | src/talk_to_figma_mcp/tools/document-tools.ts:32-41 | Iteration i (from 0) pushes, at positions 3i to 3i+2, the three spots of `dirname` applied i times. |
| DocumentTools.WalkUpVisitsPrefixes | src/talk_to_figma_mcp/tools/document-tools.ts:32-41 | In the search, iteration i pushes the spots of the module's directory with its last i segments removed. |
| DocumentTools.WalkUpAtRoot | src/talk_to_figma_mcp/tools/document-tools.ts:34-40 | At the root an iteration pushes its spots and the loop stops. |
| DocumentTools.WalkUpBelowRoot | src/talk_to_figma_mcp/tools/document-tools.ts:33-41 | Below the root an iteration pushes its spots and continues from the parent with one iteration fewer. |
| DocumentTools.WalkUpVisited | src/talk_to_figma_mcp/tools/document-tools.ts:32-41 | Every value the walk up pushes is a spot of a directory that one of its iterations visits. |
| DocumentTools.WalkUpVisits | src/talk_to_figma_mcp/tools/document-tools.ts:32-41 | Every spot of every directory that an iteration visits is pushed. |
| DocumentTools.WalkUpMembers | src/talk_to_figma_mcp/tools/document-tools.ts:32-41 | A value is pushed by the search's walk up if and only if it is a spot of `dirname`^i(fileDir) for some i below the number of iterations. |
| InsertionOrder.DedupeDistinct | src/talk_to_figma_mcp/tools/document-tools.ts:45 | The deduplicated list has no duplicates. |
| InsertionOrder.DedupeMembers | src/talk_to_figma_mcp/tools/document-tools.ts:45 | A value is in the deduplicated list if and only if it is in the input. |
| InsertionOrder.DedupeLength | src/talk_to_figma_mcp/tools/document-tools.ts:45 | Deduplication never lengthens the list. |
| InsertionOrder.DedupeHead | src/talk_to_figma_mcp/tools/document-tools.ts:45 | The first input value is the first output value. |
| InsertionOrder.DedupeSnoc | src/talk_to_figma_mcp/tools/document-tools.ts:45 | Deduplicating one more value adds it to the end exactly when it is new. |
| InsertionOrder.DedupeKeepsFirstOccurrenceOrder | src/talk_to_figma_mcp/tools/document-tools.ts:44-45 | Output entries are in increasing order of the position where each first occurs in the input. |
| InsertionOrder.EarlierFirstOccurrenceComesFirst | src/talk_to_figma_mcp/tools/document-tools.ts:44-45 | Conversely, an entry whose first occurrence is earlier sits at an earlier output position. |
| InsertionOrder.FirstIndex | src/talk_to_figma_mcp/tools/document-tools.ts:44-45 | The position of the first occurrence: it holds the value and nothing before it does. |
| InsertionOrder.DedupePrefix | src/talk_to_figma_mcp/tools/document-tools.ts:45 | Deduplicating a prefix of the input gives a prefix of the output. |
| InsertionOrder.DedupeAppendFresh | src/talk_to_figma_mcp/tools/document-tools.ts:45 | Appending new, distinct values appends exactly them to the output. |
| InsertionOrder.DedupeSkipsRepeat | src/talk_to_figma_mcp/tools/document-tools.ts:45 | A value that was already seen contributes nothing when it is seen again. |
| Paths.DirnameFixedPoint | src/talk_to_figma_mcp/tools/document-tools.ts:39-40 | `dirname` returns its argument exactly at the root. |
| Paths.RenderDirnameFixedPoint | src/talk_to_figma_mcp/tools/document-tools.ts:39-40 | The loop's string comparison `parent === cur` holds exactly at the root. |
| Paths.RenderInjective | src/talk_to_figma_mcp/tools/document-tools.ts:25-29 | Two paths render to the same string if and only if they are the same path. |
| Paths.AncestorIsPrefix | src/talk_to_figma_mcp/tools/document-tools.ts:32-41 | Applying `dirname` i times removes the last i segments, and gives the root once i reaches the depth. |

## Left out

- The command relay (connection, channels, pending requests, chunk reassembly): `utils/websocket.js` is not part of this model.
- The tool registrations in `registerDocumentTools` (document-tools.ts:114-676) and the defaulting branches inside them. They validate arguments and forward them to `sendCommandToFigma`/`joinChannel`, whose code is not part of this model.
- `filterFigmaNode`: `utils/figma-helpers.js` is not part of this model.
- The commented-out `readGuideFile`, `list_guides`, `read_guide` and the resources (document-tools.ts:48-108, 116-154, 576-674). They are dead code.
- `server.ts`: process start-up and transport wiring, with no logic of its own.
- `process.env`, `process.cwd()` and `import.meta.url` become parameters. `override` is the value of `GUIDES_DIR` captured when the module loads (document-tools.ts:13). `env` is the value read during the call. `cwd` is the working directory. `fileDir` is the module's directory, as `fileURLToPath` and `dirname` would give it.
- Node's `path` module is modelled only for absolute, normalised POSIX paths: `resolve` of a relative path without `.` or `..`, and `dirname` as dropping the last segment. Windows drive letters, trailing separators, `.`/`..` segments and relative working directories are not modelled.
- The override and environment strings are pushed unchanged, as the source does. Nothing requires them to be paths.
