# A Dafny model of the aroma web UI's core

The system has two parts:
- a Node/Express web UI (`ui/main.js`), which supervises a Python image-generation daemon, tracks model downloads and serves generated images;
- the daemon itself (`daemon/src/core`).

The two sides share a small obfuscation codec ("aroma"), which they use for every state file and every image sidecar.

This project models the parts of that system that decide something, leaving out the parts that only move bytes:

- **AromaCodec** (`aroma_codec.dfy`), with **Base64** (`base64.dfy`): `generate_mask`, `aroma_encode` and `aroma_decode` of `state.py`.
  - The mask is the SHA-512 of the salted password.
  - To encode, the text is UTF-8 encoded and gzipped, the two gzip magic bytes are dropped, and the rest is XORed with the cycling mask and with the previously written byte. The result is Base64.
  - Decoding reverses each step.
  - The two XOR loops are methods over a byte array, proved against the recursive functions `Chain` and `Unchain`.
  - The Base64 layer is RFC 4648 section 4, modelled concretely.
  - UTF-8, gzip and SHA-512 are functions passed in an `Externals` record. The ghost predicate `Lawful` states what the codec relies on: the UTF-8 and gzip round trips; that every gzip member starts with ID1 ID2 = 1F 8B and is at least 18 bytes long (section 2.3 of RFC 1952); and that a digest is 64 bytes.
- **DictMerge** (`dict_merge.dfy`): `merge_dict` of `state.py`, as a recursive method, including the values of `src` that make Python's `for k in src` raise.
- **ObjectMerge** (`object_merge.dfy`): `mergeObject` of `main.js`, including the effect of `typeof null == "object"` and the keys `for...in` visits in an array or a string src: their indexes "0", "1", ....
- **Supervisor** (`supervisor.dfy`): the daemon globals of `main.js`, `killDaemon` / `startDaemon`, the data and exit handlers, and the five `/api/daemon` routes, as a class whose methods are the routes and events.
- **Downloads** (`downloads.dfy`): the `downloadPS` list, `addDownloadPS` with its handlers, and GET `/api/download-model`, as a class.
- **OutputFiles** (`output_files.dfy`): the `.a` filter of GET `/api/outputs` and the name check of DELETE `/api/outputs/:filename`.
- **Pipes** (`pipes.dfy`): the pieces of `pipes.py` that decide what runs:
  - `filter_image_size`;
  - the sampling-method table;
  - the `SDPipes` object, with its cached model and prompts, the resume-stage choice of `text_to_image`, and the stage chain with its highres loop.

  An image is a symbolic record of how it was made. The states passed to `write_state` are returned as a sequence.

These behaviours of the code are easy to misread, and the model keeps them as written:
- Two downloads with the same (repoID, subdir) are not removed independently. The first exit removes both entries (`Downloads.SameKeyBothRemoved`).
- The download listing does not report the repository id. It reads `obj["repo_id"]`, a field that is never set, so `JSON.stringify` omits it.
- A download listed before its process has printed anything makes the listing throw. Its output starts with the text `undefined`.
- The exit event of a daemon that has already been replaced still clears the handle. A restart can therefore leave a live daemon reported as not running (`Supervisor.StaleExitAfterRestart`).
- The codec is not a plain repeating-key XOR: every output byte is also XORed with the previous output byte, and the XOR runs over the gzipped body without its magic bytes.

## Model

| member | source | states |
|---|---|---|
| `AromaCodec.Salted` | daemon/src/core/state.py:19 | the hashed text is the prefix `-<f!-`, the password, then the suffix `<8z.` |
| `AromaCodec.GenerateMask` | daemon/src/core/state.py:17-23 | the mask is the 64-byte SHA-512 digest of the UTF-8 salted password |
| `AromaCodec.DistinctPasswordsDistinctDigestInputs` | daemon/src/core/state.py:17-23 | different passwords feed different bytes to SHA-512, so their masks differ unless the hash collides |
| `AromaCodec.MixCancels` | daemon/src/core/state.py:40-41 | XORing in the same two bytes again, in the decoder's order, restores a byte |
| `AromaCodec.Chain` | daemon/src/core/state.py:37-42 | the encoder's feedback XOR keeps the length of the body |
| `AromaCodec.ChainAt` | daemon/src/core/state.py:40-42 | each encoded byte is payload byte ^ mask[i % len] ^ previous encoded byte (0 at the start) |
| `AromaCodec.Unchain` | daemon/src/core/state.py:54-60 | the decoder's feedback XOR keeps the length |
| `AromaCodec.UnchainAt` | daemon/src/core/state.py:57-60 | each decoded byte is encoded byte ^ previous encoded byte ^ mask[i % len] |
| `AromaCodec.UnchainChain` | daemon/src/core/state.py:37-42 | the decoder's loop undoes the encoder's loop for every non-empty mask |
| `AromaCodec.ChainUnchain` | daemon/src/core/state.py:54-60 | the encoder's loop undoes the decoder's loop, so the transform is a bijection on byte strings |
| `AromaCodec.DropMagic` | daemon/src/core/state.py:35 | `b[2:]` of a gzip member leaves exactly the bytes that follow the magic 1F 8B |
| `AromaCodec.EffectiveMask` | daemon/src/core/state.py:28-29 | no mask stands for the one-byte mask 0x00, so the effective mask is empty exactly when an empty mask is given |
| `AromaCodec.MaskBytes` | daemon/src/core/state.py:37-42 | the in-place array loop computes the feedback XOR of the body, or fails with ZeroDivisionError on an empty mask and a non-empty body |
| `AromaCodec.AromaEncode` | daemon/src/core/state.py:26-44 | the result is Base64 of the masked gzip body, with no mask meaning [0x00] |
| `AromaCodec.UnmaskBytes` | daemon/src/core/state.py:54-60 | the in-place array loop inverts the feedback XOR, or fails with ZeroDivisionError on an empty mask and non-empty data |
| `AromaCodec.AromaDecode` | daemon/src/core/state.py:47-66 | Base64-decode, unmask, restore 1F 8B, gunzip and UTF-8-decode, each failing step giving its own error |
| `AromaCodec.Inflate` | daemon/src/core/state.py:61-66 | after unmasking, decoding fails only with a gzip or a UTF-8 error, and otherwise returns the UTF-8 text of the gunzipped 1F 8B + body |
| `AromaCodec.EncodeFailsIffEmptyMask` | daemon/src/core/state.py:37-40 | encoding raises exactly when the mask is present but empty, because a gzip body is never empty |
| `AromaCodec.NoMaskIsZeroByte` | daemon/src/core/state.py:28-29 | no mask encodes and decodes exactly like the one-byte mask 0x00 |
| `AromaCodec.DecodeEncode` | daemon/src/core/state.py:26-66 | decoding with the same mask returns the encoded text, for every mask encoding accepts and every text |
| `AromaCodec.PasswordRoundTrip` | daemon/src/core/state.py:17-66 | with a mask made from any password, encoding succeeds and decoding returns the text |
| `Base64.CharOf` | daemon/src/core/state.py:44 | a sextet's alphabet character is never the padding character |
| `Base64.ValueOf` | daemon/src/core/state.py:52 | a character that decodes maps back to itself under the alphabet |
| `Base64.ValueOfCharOf` | daemon/src/core/state.py:44-52 | every sextet is recovered from its character |
| `Base64.SextetsRoundTrip` | daemon/src/core/state.py:44-52 | splitting three bytes into four sextets and joining them back restores the bytes |
| `Base64.Encode` | daemon/src/core/state.py:44 | the encoding is 4 * ceil(n / 3) characters long |
| `Base64.Decode` | daemon/src/core/state.py:52 | an accepted string has a length that is a multiple of 4 and gives at most 3 bytes per group |
| `Base64.EncodeAlphabet` | daemon/src/core/state.py:44 | every character of an encoding is in the alphabet or is padding, and padding occurs only in the last two places |
| `Base64.DecodeEncode` | daemon/src/core/state.py:44-52 | decoding inverts encoding on every byte string, the empty one included |
| `DictMerge.MergeDict` | daemon/src/core/state.py:9-14 | merge_dict returns exactly when `src` is mergeable, and its result is `Merged(dst, src)` |
| `DictMerge.Mergeable` | daemon/src/core/state.py:9-14 | only a dict or an empty list or string can be merged without raising, and a dict whose keys meet no dict of dst always can |
| `DictMerge.Merged` | daemon/src/core/state.py:10-14 | after a merge, dst holds its old keys and every key of src |
| `DictMerge.MergedKeepsOthers` | daemon/src/core/state.py:10 | keys that src does not hold keep their values |
| `DictMerge.MergedOverwritesOrDescends` | daemon/src/core/state.py:11-14 | a key whose old value is a dict receives a recursive merge; any other key is overwritten by src's value |
| `DictMerge.ScalarOverDictRaises` | daemon/src/core/state.py:10-12 | a null, bool, number or non-empty string merged onto a dict raises |
| `DictMerge.MergeEmptyIsIdentity` | daemon/src/core/state.py:10 | an empty dict, list or string as src leaves dst unchanged |
| `DictMerge.SelfMerge` | daemon/src/core/state.py:9-14 | merging a dict into itself changes nothing |
| `DictMerge.MergeIdempotent` | daemon/src/core/state.py:9-14 | merging the same src a second time succeeds and changes nothing more |
| `ObjectMerge.Target` | ui/main.js:18-21 | the recursive call's target is dst[key] if that is an object or null, else a fresh {} |
| `ObjectMerge.IndexKey` | ui/main.js:16 | the key `for...in` gives index i is its decimal digits, which spell i back, so different indexes give different keys |
| `ObjectMerge.IndexFields` | ui/main.js:16-17 | an array is visited as its elements under the keys "0" to "n-1", and under no other key |
| `ObjectMerge.Chars` | ui/main.js:17 | `src[key]` of a string is the one-character string at that index |
| `ObjectMerge.Fields` | ui/main.js:16-17 | `for...in` visits an object's keys, the indexes of an array or string, and nothing of a number, boolean or null |
| `ObjectMerge.Mergeable` | ui/main.js:14-28 | mergeObject returns without throwing; a src with nothing to visit never throws |
| `ObjectMerge.NewValue` | ui/main.js:18-25 | a visited non-object value is copied and an object-like one is merged into an object-like target |
| `ObjectMerge.Merged` | ui/main.js:14-28 | after a merge into an object, it holds its old keys and every key src visits; a merge into null leaves null |
| `ObjectMerge.MergeObject` | ui/main.js:14-28 | mergeObject returns exactly when `src` is mergeable, and its result is `Merged(dst, src)`, for every src, arrays and strings included |
| `ObjectMerge.MergedKeepsOthers` | ui/main.js:16 | keys that src does not visit keep their values |
| `ObjectMerge.MergedValueAt` | ui/main.js:18-25 | a visited non-object value is copied; an object value is merged into dst[key], or into {} when dst[key] is not an object |
| `ObjectMerge.NothingToVisitIsIdentity` | ui/main.js:16 | a number, boolean, null, [] or "" as src leaves dst unchanged |
| `ObjectMerge.ArrayBecomesIndexKeys` | ui/main.js:16-25 | an array of non-objects is copied into dst element by element, under the keys "0", "1", ... |
| `ObjectMerge.StringBecomesIndexKeys` | ui/main.js:16-25 | a string is copied into dst one character per key "0", "1", ... |
| `ObjectMerge.ArrayBody` | ui/main.js:245-261 | a PUT /api/values body `[1,2]` merged into {} gives {"0": 1, "1": 2} |
| `ObjectMerge.StringBody` | ui/main.js:245-261 | a PUT /api/values body `"ab"` merged into {} gives {"0": "a", "1": "b"} |
| `ObjectMerge.NullInSrcBecomesEmptyObject` | ui/main.js:18-22 | a null in src turns a missing or non-object dst[key] into {} |
| `ObjectMerge.NullTargetThrows` | ui/main.js:18-22 | merging a non-empty object into a null dst[key] throws TypeError |
| `ObjectMerge.NullDstThrows` | ui/main.js:16-25 | visiting any key through a null dst throws, for an object, a non-empty array and a non-empty string src alike |
| `ObjectMerge.MergeIdempotent` | ui/main.js:14-28 | merging the same src a second time succeeds and changes nothing more |
| `Supervisor.AppendOutput` | ui/main.js:328-338 | after a chunk, the buffer is a suffix of old buffer + chunk + newline, at most 65536 characters long, cut to exactly 65535 characters when it overflows, and left whole otherwise |
| `Supervisor.NewestChunkIsKept` | ui/main.js:328-338 | the buffer ends with as much of the newest chunk and its newline as fits |
| `Supervisor.Daemon.constructor` | ui/main.js:310-311 | at start-up no daemon is running and the buffer is empty |
| `Supervisor.Daemon.KillDaemon` | ui/main.js:313-322 | returns whether a daemon was set, signals that one, and always leaves the handle cleared |
| `Supervisor.Daemon.StartDaemon` | ui/main.js:324-327 | empties the buffer and records a newly spawned daemon, without looking at an old one |
| `Supervisor.Daemon.OnOutput` | ui/main.js:328-339 | a chunk from any spawned daemon, stale or current, and also one delivered after its exit event, goes through `AppendOutput` into the one buffer |
| `Supervisor.Daemon.OnExit` | ui/main.js:340-343 | the exit of any spawned daemon clears the handle |
| `Supervisor.Daemon.Status` | ui/main.js:346-352 | "running" exactly when a handle is set, "not_running" exactly when none is |
| `Supervisor.Daemon.Toggle` | ui/main.js:354-362 | a running daemon is killed and none started; otherwise a new one starts with an empty buffer |
| `Supervisor.Daemon.Start` | ui/main.js:364-368 | any running daemon is signalled and a new one starts with an empty buffer |
| `Supervisor.Daemon.Stop` | ui/main.js:370-373 | any running daemon is signalled and the handle cleared; the buffer is kept |
| `Supervisor.Daemon.Outputs` | ui/main.js:375-378 | returns the buffer, which never exceeds 65536 characters |
| `Supervisor.StartThenStop` | ui/main.js:364-373 | start followed by stop reports "not_running" |
| `Supervisor.ToggleTwice` | ui/main.js:354-362 | toggling twice from either state reports that state again |
| `Supervisor.StaleExitAfterRestart` | ui/main.js:340-343 | after a restart, the old daemon's late output lands in the new buffer and its exit makes the live new daemon read as not running |
| `Supervisor.OutputAfterExit` | ui/main.js:328-343 | output delivered after the daemon's exit event still lands in the buffer while the status reads "not_running" |
| `Downloads.AppendOut` | ui/main.js:398 | `obj.out += chunk` on the undefined field gives "undefined" + chunk; otherwise it appends |
| `Downloads.AppendTo` | ui/main.js:397-402 | a chunk changes the listed entries of its own process only |
| `Downloads.RemoveKey` | ui/main.js:406 | the filter keeps exactly the entries whose repoID or subdir differs, and never grows the list |
| `Downloads.RemoveKeyAppend` | ui/main.js:406 | the filter keeps the survivors in order: it distributes over concatenation |
| `Downloads.RemoveKeyIdempotent` | ui/main.js:406 | filtering a second time by the same key removes nothing more |
| `Downloads.RemoveKeyKeepsDistinct` | ui/main.js:406 | the filter never puts two entries of one process in the list |
| `Downloads.Tail` | ui/main.js:478 | `slice(-200)` gives the last min(200, length) characters |
| `Downloads.ListEntry` | ui/main.js:475-479 | a listed entry has no repository id, the entry's subdir, and at most the last 200 characters of its output |
| `Downloads.Tracker.constructor` | ui/main.js:387 | the download list starts empty |
| `Downloads.Tracker.AddDownloadPS` | ui/main.js:389-396 | appends one entry with undefined output and installs the handlers of its process |
| `Downloads.Tracker.OnData` | ui/main.js:397-402 | the data handlers of a process, also after its exit event, append to its entry if it is still listed |
| `Downloads.Tracker.OnExit` | ui/main.js:403-407 | the exit handler removes every entry with the process's (repoID, subdir), leaving the rest in order |
| `Downloads.Tracker.ListDownloads` | ui/main.js:472-482 | the listing throws exactly when some entry has no output yet; otherwise it has one element per entry, in order |
| `Downloads.AddThenExit` | ui/main.js:389-407 | a download that was added and has exited is no longer listed |
| `Downloads.ListBeforeOutput` | ui/main.js:474-478 | listing a download that has not printed anything throws TypeError |
| `Downloads.FirstChunk` | ui/main.js:397-399 | the first chunk is listed after the text "undefined", and without a repository id |
| `Downloads.SameKeyBothRemoved` | ui/main.js:403-407 | when one of two downloads with the same key exits, both entries go |
| `Downloads.DataAfterExit` | ui/main.js:397-407 | output that arrives after the exit event changes no listed entry |
| `OutputFiles.LastIndexOf` | ui/main.js:136 | `lastIndexOf` gives the last position of the character, or -1 when it does not occur |
| `OutputFiles.ExtName` | ui/main.js:134 | `path.extname` of a directory entry is empty or a proper suffix of the name that starts at a dot and holds no other dot |
| `OutputFiles.ExtNameIsArchive` | ui/main.js:134-135 | `path.extname` of a directory entry is ".a" exactly when the name is at least one character followed by ".a", whose last dot is then at length - 2 |
| `OutputFiles.ListOutputs` | ui/main.js:130-142 | the loop keeps the archives, in directory order, without their extension |
| `OutputFiles.ArchivesMembers` | ui/main.js:134-139 | a name is listed exactly when it is non-empty and the directory holds it with ".a" appended |
| `OutputFiles.ArchivesNoSlash` | ui/main.js:134-139 | no listed name contains '/' |
| `OutputFiles.ValidName` | ui/main.js:215-216 | a name that passes `^[a-zA-Z0-9_\-\.]+$` is non-empty and has no '/' |
| `OutputFiles.DeleteOutput` | ui/main.js:213-224 | a name is rejected exactly when it fails `^[a-zA-Z0-9_\-\.]+$`; otherwise outputsPath/name.a is unlinked |
| `OutputFiles.DeleteStatus` | ui/main.js:216-229 | the reply is 400 for a bad name, 500 when the unlink fails, and 200 when it succeeds |
| `OutputFiles.DeleteStaysInOutputs` | ui/main.js:215-224 | an unlinked path is an entry of the outputs directory itself: its last component has no '/', is neither "." nor "..", and ends in ".a" |
| `OutputFiles.ListedThenDeleted` | ui/main.js:130-224 | a listed name that passes the check deletes exactly the archive it was listed for |
| `Pipes.FilterImageSize` | daemon/src/core/pipes.py:13-18 | the size is always a non-negative multiple of 8 |
| `Pipes.FilterInt` | daemon/src/core/pipes.py:14-18 | the int case gives a non-negative multiple of 8 |
| `Pipes.FilterRoundsUp` | daemon/src/core/pipes.py:16-18 | a non-negative int n becomes the least multiple of 8 that is at least n, so within [n, n + 8) |
| `Pipes.FilterFallback` | daemon/src/core/pipes.py:14-15 | negatives and non-ints give 16; 0 gives 0 and, as Python bools are ints, True gives 8 and False 0 |
| `Pipes.FilterIdempotent` | daemon/src/core/pipes.py:13-18 | filtering a filtered size changes nothing |
| `Pipes.SchedulerFor` | daemon/src/core/pipes.py:137-205 | an unknown name keeps the default; a DPM-Solver++ entry sets order 2 or 3 and the algorithm "dpmsolver++" and leaves the prediction type alone; every other entry is its class from the config with nothing set |
| `Pipes.UnknownNameKeepsDefault` | daemon/src/core/pipes.py:139-202 | the default scheduler is kept exactly for names outside the table |
| `Pipes.NameOfSchedulerFor` | daemon/src/core/pipes.py:140-200 | every name of the table is recovered from the scheduler it selects |
| `Pipes.SamplingTableInjective` | daemon/src/core/pipes.py:140-200 | no two names of the table select the same scheduler |
| `Pipes.DpmNamesSpellTheirConfig` | daemon/src/core/pipes.py:161-194 | a name "DPM++ " + order + "S" or "M" + optional " Karras" selects single- or multistep DPM-Solver++ of that order with that Karras setting; a singlestep " Karras" name is unknown |
| `Pipes.ResumeStage` | daemon/src/core/pipes.py:301-314 | a job that does not reload runs on the cached model, revision and variant, and one that only generates also on the cached prompt texts |
| `Pipes.ResumeStageCases` | daemon/src/core/pipes.py:301-314 | a job reloads iff path, revision or variant differ; re-embeds iff the model is the same and a prompt differs; else only generates |
| `Pipes.FirstJobLoads` | daemon/src/core/pipes.py:22-28 | the first job after start-up always loads a model |
| `Pipes.CacheAfter` | daemon/src/core/pipes.py:109-111 | after a job the job's model is cached; the prompt cache is refreshed unless the job only generated, in which case nothing changes |
| `Pipes.RepeatedJobOnlyGenerates` | daemon/src/core/pipes.py:109-111 | after a job the model matches it, so a repeated job never reloads, and it only generates when the prompt cache holds the texts as given |
| `Pipes.JobImage` | daemon/src/core/pipes.py:207-299 | a job's image is generated once by the given model from the cached prompt texts and then refined once per highres pass |
| `Pipes.JobImageSize` | daemon/src/core/pipes.py:216-217 | the final image has the filtered size of the last highres pass, or of the params when there is none, always a multiple of 8 |
| `Pipes.RefineAllCount` | daemon/src/core/pipes.py:262-297 | the highres loop refines the image once per entry and keeps the generation it started from |
| `Pipes.HighresWritesCount` | daemon/src/core/pipes.py:262-298 | the highres loop starts one pass per entry and writes neither "done" nor "load_model" itself |
| `Pipes.GenerateWritesCount` | daemon/src/core/pipes.py:207-255 | generation writes "done" once and starts one highres pass per entry |
| `Pipes.JobWrites` | daemon/src/core/pipes.py:116-314 | a job writes "done" exactly once and last, one highres start per entry, and "load_model" exactly when it starts with a load |
| `Pipes.LabelsDistinct` | daemon/src/core/pipes.py:118-298 | different states are written under different `write_state` names |
| `Pipes.StagesAreSuffixes` | daemon/src/core/pipes.py:126-135 | every stage's writes are a suffix of a full run's: load falls through to prompt, and prompt falls through to generate |
| `Pipes.SDPipes.constructor` | daemon/src/core/pipes.py:22-32 | a fresh object has no model and both prompts "." |
| `Pipes.SDPipes.LoadPipelines` | daemon/src/core/pipes.py:66-114 | _load_model caches path, revision and variant, and both pipelines get the default scheduler |
| `Pipes.SDPipes.UpdateSamplingMethod` | daemon/src/core/pipes.py:137-205 | both pipelines receive the one scheduler the table selects; the caches are untouched |
| `Pipes.SDPipes.TextToImage` | daemon/src/core/pipes.py:301-314 | writes the states of the chosen stage and of generation, updates the caches as `CacheAfter`, and produces `JobImage` from the job's model with the selected scheduler |
| `Pipes.SDPipes.LoadModelStage` | daemon/src/core/pipes.py:116-126 | writes "load_model", loads, and falls through to the prompt stage |
| `Pipes.SDPipes.UpdatePromptStage` | daemon/src/core/pipes.py:128-135 | writes "update_prompt", re-caches both prompts, and falls through to generation |
| `Pipes.SDPipes.GenerateStage` | daemon/src/core/pipes.py:207-255 | filters the size, swaps the scheduler and generates, then either runs the highres passes or writes "done" |
| `Pipes.SDPipes.HighresFixStage` | daemon/src/core/pipes.py:257-299 | one resize-and-refine per entry, in order, each writing its three states, and then "done" |
| `Pipes.SameJobTwice` | daemon/src/core/pipes.py:301-314 | the same job twice: a full run from a load, then generation only |

## Left out

- UTF-8, gzip and SHA-512 are parameters constrained by `Lawful`, not implementations. Their internals are library code.
- Decoding with the wrong mask is not modelled as a failure. Whether gunzip rejects the bytes depends on gzip's CRC check, which `Lawful` does not describe.
- `Base64.Decode` is strict: the length must be a multiple of 4 and padding may appear only in the last group. Python's non-validating `b64decode` is lenient in ways the model does not follow: it raises ValueError for a `str` that holds a non-ASCII character, silently drops ASCII characters outside the alphabet, and stops at the first complete padding group. The encoder produces none of these inputs, and the round trip does not depend on them. Like Python, the decoder ignores the unused low bits of a padded final group.
- `AromaCodec.AromaEncode`: `gzip.compress` with its default `mtime=None` writes the current time into the MTIME field of the gzip header, so the real `aroma_encode` is not a function of (mask, s). The model passes the compressor as a function of the bytes alone, as if the clock were fixed. The round trip is unaffected, because gunzip ignores MTIME.
- `DictMerge.MergeDict` treats a non-empty list as `src` as an error. Python would iterate a list's elements as keys, and a list of small ints whose elements index the list itself would merge without error.
- Merges are modelled on values. Python and JavaScript mutate `dst` in place and keep the keys already written when a later key raises. The model returns either the whole result or an error, and does not model aliasing between `dst` and `src`.
- `ObjectMerge.MergeObject` requires `dst` to be an object or null at the top level. Every call site passes an object.
- `ObjectMerge.MergeObject` treats a src key `"__proto__"` as an ordinary key. In JavaScript, an own `"__proto__"` key that `JSON.parse` creates is visited, but unless dst has an own `"__proto__"` key, `dst["__proto__"]` is the prototype: an object value is merged into `Object.prototype`, and an array or primitive value sets or is ignored as dst's prototype, so no own key is added. Prototype state is not modelled, nor are the later lookups of inherited keys that such a write affects.
- JavaScript strings are sequences of UTF-16 code units. The model uses `seq<char>`, so `length` and `slice` count a character outside the Basic Multilingual Plane once rather than twice.
- Process spawning, signals, `stdin.pause()`, exit codes, console logging, the `started` date of a download and all HTTP response plumbing are not modelled. Processes are abstract ids, and a route's visible effect is its state change or its return value.
- POST `/api/download-model` builds the downloader command and calls `addDownloadPS`. Its body parsing and subprocess spawning are not modelled; `AddDownloadPS` is.
- The directory listing of `/api/outputs` and the outcome of `unlink` are parameters; the filesystem is not modelled.
- `currentDateInFormat`, the model and LoRA directory walks, archiving, the values and state-file routes, and the `State` class's file I/O are I/O and are not modelled.
- `prompt.py` (random prompt choices, textual-inversion conversion, weighting, embeddings) is not part of this model. The prompt text the embedder caches after a job is a parameter of `TextToImage`. `update_embed` caches the text after random choices are expanded and `maybe_convert_prompt` has run, so not the text it was given, and it leaves the cache unchanged when the expanded text equals the previous expansion.
- Pipeline loading, textual inversions, device placement, inference, image resizing and `int(sampling_steps * strength)` are torch/diffusers work. An image is a symbolic record, and "Failed to load model" is not modelled.
- `Pipes.GenerateWrites`: the per-step progress writes made by the inference callbacks are not in the modelled sequence. Their number depends on the pipeline. The final explicit callback of each generation is included.
- `Pipes.Scheduler`: a scheduler built by `from_config` is described only by its class and the attributes the table sets afterwards. The values it inherits from the loaded model's config are not modelled.
