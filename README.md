# rez package metafile loader, in Dafny

This project models `bin/rez_metafile.py` of rez, the package manager. That file
loads a package's `package.yaml` into a `ConfigMetadata` object. It takes the
document PyYAML produced and either raises or fills a fixed set of attributes:

- `config_version`, `uuid`, `authors`, `description`, `name`, `version` and `help`;
- the version-0 list fields `requires`, `build_requires`, `variants` and `commands`.

On top of that object it offers:

- the accessors, including `get_requires`, which can put the build requirements
  ahead of the runtime ones;
- the command templater `get_string_replace_commands`;
- the process-wide `metafile_cache` in front of the constructor.

Files:

- `wrappers.dfy`: `Option` and `Result`, used for Python's `None` and for its exceptions.
- `yaml.dfy`: the parsed YAML value (`Value`) and the outcome of reading and parsing
  a file (`Document`). Python's `len()` is modelled as a function. Python's `int()`
  and `str()` are a `Coercions` value supplied by the caller.
- `text.dfy`: the Python string methods the loader uses: `split`, `join`, `replace`
  and `strip`, with their laws. One law is that `replace` is `join` of `split`.
  Another is that `split` and then `join` returns the original string.
- `metafile.dfy`: the acceptance rules as functions (`ListField`, `LoadVersion0`,
  `LoadRoot`, `LoadDocument`). It also holds the `ConfigMetadata` class, which
  applies those rules by assigning its attributes step by step, as `__init__` and
  `load_0` do. Its methods are proved equal to the functions. The accessors and the
  templater are here too.
- `cache.dfy`: `metafile_cache` as a `Cache` object holding a
  `map<string, ConfigMetadata>`, and `get_cached_metadata` as its method.

Behaviour the model keeps exactly as the code has it:

- A null root, or any root whose `len()` is 0, gives a stub package. This covers
  `{}`, `[]` and `""`.
- A non-empty list or string root is rejected as a non-dictionary root.
- A `bool`, `int` or `float` root makes `len()` raise `TypeError`. The model has a
  separate error kind for this, `LenTypeError`.
- Only element 0 of `requires`, `build_requires` and `variants` is type-checked.
  Element 0 of `commands` is never type-checked, and neither is any other element.
- A non-string command therefore passes loading. It fails only later, inside
  `get_string_replace_commands`, where `.replace` raises `AttributeError`. The
  model returns `Failure(CommandNotString(i))` there, where `i` is the first such
  index.
- An empty list is stored as absent. So after a successful load, each list field
  is either absent or a non-empty list.
- The templater splits `version` on `.` and pads the result with two empty strings.
  It then applies six global replacements in a fixed order.
- The cache is keyed by the literal filename string. It never forgets an entry and
  never stores a failure.
- `int()` of an infinite `config_version` (`.inf`) raises `OverflowError`, which the
  loader does not catch. It escapes as itself (`OverflowError` in the model), not as a
  `ConfigMetadataError`.

## Model

| member | source | states |
|---|---|---|
| `Yaml.Len` | bin/rez_metafile.py:49 | `len()` has no value (raises `TypeError`) exactly for null, bool, int and float nodes |
| `Text.SplitOn` | bin/rez_metafile.py:153 | `version.split('.')` always yields at least one piece, so the padded lookups `vernums[0]` and `vernums[1]` exist |
| `Text.JoinAfterSplit` | bin/rez_metafile.py:153 | splitting a string and joining the pieces back with the same separator gives the original string |
| `Text.SplitOnCharHead` | bin/rez_metafile.py:153-155 | the first piece of `s.split(c)` is the longest prefix of `s` without `c`; there are further pieces exactly when `c` occurs, and they are the split of the text after that `c` |
| `Text.SplitPiecesAvoidSeparator` | bin/rez_metafile.py:153 | no piece of `s.split(sep)` contains `sep`, for a separator of any length, and the first piece is a prefix of `s` |
| `Text.ReplaceAll` | bin/rez_metafile.py:160-165 | `s.replace(pat, rep)` equals `rep.join(s.split(pat))`: every leftmost non-overlapping occurrence is replaced |
| `Text.ReplaceAllBySelf` | bin/rez_metafile.py:160-165 | replacing a placeholder by itself leaves any command unchanged |
| `Text.ReplaceAllUntouched` | bin/rez_metafile.py:160-165 | a command that does not contain the placeholder's first character is returned unchanged |
| `Text.ReplaceAllSkip` | bin/rez_metafile.py:160-165 | text before the first possible occurrence is copied through, and replacement continues on the rest |
| `Text.ReplaceAllAtFront` | bin/rez_metafile.py:160-165 | an occurrence at the front is replaced, and scanning resumes right after it |
| `Text.ReplaceAllTooShort` | bin/rez_metafile.py:160-165 | text shorter than the placeholder is left unchanged |
| `Text.ReplaceOtherTag` | bin/rez_metafile.py:160-165 | a placeholder is not touched by the replacement of a different placeholder of the same length |
| `Text.StripLeading` | bin/rez_metafile.py:88 | the result is a suffix of the input, only whitespace was dropped, and it does not start with whitespace |
| `Text.StripTrailing` | bin/rez_metafile.py:88 | the result is a prefix of the input, only whitespace was dropped, and it does not end with whitespace |
| `Text.Strip` | bin/rez_metafile.py:88 | the stripped description starts and ends with non-whitespace; it is empty exactly when the input is all whitespace; an already-trimmed string is kept |
| `Text.StripIdempotent` | bin/rez_metafile.py:88 | stripping a description twice gives the same result as stripping it once |
| `RezMetafile.ListField` | bin/rez_metafile.py:191-240 | a list field is accepted exactly when it is absent, or a list whose element 0 (if any) has the required type. On success it holds the source list, with an empty list read as absent. A non-list is reported as a non-list node, and a bad element 0 as a bad entry |
| `RezMetafile.LoadVersion0` | bin/rez_metafile.py:187-240 | the version-0 fields succeed exactly when all four list fields are accepted; on success the result is the input with the four normalised lists filled in and nothing else changed; on failure the error is that of the first rejected field, in the order `requires`, `build_requires`, `variants`, `commands` |
| `RezMetafile.CommonFields` | bin/rez_metafile.py:75-100 | the filename and version are kept; `uuid`, `version`, `name`, `help`, `description` and `authors` are each present exactly when their key is; description is the stripped `str()` and neither starts nor ends with whitespace; authors is the source list; the four list fields are still `None` |
| `RezMetafile.LoadRoot` | bin/rez_metafile.py:31-107 | the stub rule; `TypeError` for a scalar root; the non-dictionary rejection; for a non-empty mapping, success exactly when `Accepted` holds, `OverflowError` exactly when `int(config_version)` overflows, and every other failure is a `ConfigMetadataError` naming the file; every success is well formed (version in `[0, METAFILE_VERSION]`, each list field absent or non-empty, with element 0 checked) |
| `RezMetafile.LoadDocument` | bin/rez_metafile.py:45-49 | an unreadable file raises an I/O error and a YAML syntax error propagates, distinct from all schema errors; any success is well formed and names its file |
| `RezMetafile.ConfigVersionRules` | bin/rez_metafile.py:59-73 | for a non-empty mapping: missing, non-integer and out-of-range `config_version` each fail with their own `ConfigMetadataError`; an overflowing `int()` raises `OverflowError` |
| `RezMetafile.InfiniteConfigVersion` | bin/rez_metafile.py:64-68 | with Python's `int()`, `config_version: .inf` makes loading raise `OverflowError` |
| `RezMetafile.AuthorsAndListRules` | bin/rez_metafile.py:75-107 | once `config_version` passes, a non-list `authors` fails with `AuthorsNotList`; otherwise every failure is the `ConfigMetadataError` carrying `LoadVersion0`'s rule |
| `RezMetafile.LoadedFields` | bin/rez_metafile.py:75-240 | on an accepted mapping: uuid, version, name and help are `str()` of their values; description is `str().strip()`; authors is stored unchanged; each list field is the normalised source list; an absent key leaves its attribute `None` |
| `RezMetafile.ShallowEntryCheck` | bin/rez_metafile.py:197-240 | replacing everything after element 0 of a non-empty list field with arbitrary values leaves acceptance unchanged in both directions, and the field is then loaded as exactly that new list |
| `RezMetafile.ZeroConfigVersionAccepted` | bin/rez_metafile.py:64-73 | with Python's `int()`, `config_version: 0` passes, and acceptance then depends only on `authors` and the four list fields |
| `RezMetafile.VersionNumbers` | bin/rez_metafile.py:153-155 | major is the text of `version` up to its first dot (all of it when there is none); minor is the text between the first and the second dot, or `""` when there is no dot |
| `RezMetafile.VersionNumbersExamples` | bin/rez_metafile.py:153-155 | `"3"` gives major `"3"` and minor `""`; `"2.5.1"` gives major `"2"` and minor `"5"` |
| `RezMetafile.UserName` | bin/rez_metafile.py:156 | the USER value when it is set, `UNKNOWN_USER` otherwise |
| `RezMetafile.SubstitutionsFor` | bin/rez_metafile.py:153-156 | the version, base and root are passed through; major and minor come from the split version; the user comes from USER with its default |
| `RezMetafile.Render` | bin/rez_metafile.py:160-165 | a command containing no `!` comes out unchanged |
| `RezMetafile.RenderVersionAndUser` | bin/rez_metafile.py:160-165 | in a command whose only placeholders are `!VERSION!` and a final `!USER!`, exactly those two are filled in (when the version holds no `!`) |
| `RezMetafile.VersionStep` | bin/rez_metafile.py:160 | filling `!VERSION!` in `head !VERSION! mid !USER!` touches only that placeholder |
| `RezMetafile.OtherTagStep` | bin/rez_metafile.py:161-164 | the major, minor, base and root replacements leave `!USER!` and text without `!` alone |
| `RezMetafile.UserStep` | bin/rez_metafile.py:165 | a final `!USER!` is replaced by the user name |
| `RezMetafile.RenderExample` | bin/rez_metafile.py:147-168 | `setup !VERSION! !USER!` at version 2.5.1 renders as `setup 2.5.1 ` followed by the user name |
| `RezMetafile.ConfigMetadata.constructor` | bin/rez_metafile.py:31-44 | a new object has `config_version` 0 and every other attribute `None` |
| `RezMetafile.ConfigMetadata.Populate` | bin/rez_metafile.py:45-107 | assigning the attributes step by step raises exactly what `LoadRoot` rejects, with the same error. Otherwise it leaves exactly the attributes `LoadRoot` computes, and they are well formed. A null document is kept as `{}` |
| `RezMetafile.ConfigMetadata.ReadCommon` | bin/rez_metafile.py:75-100 | fails exactly when `authors` is present and not a list; otherwise the common attributes are those of `CommonFields` |
| `RezMetafile.ConfigMetadata.Load0` | bin/rez_metafile.py:187-240 | the four in-place field assignments fail with `LoadVersion0`'s rule, or leave exactly its result |
| `RezMetafile.ConfigMetadata.GetRequires` | bin/rez_metafile.py:109-127 | `get_requires(False)` is `requires` verbatim. `get_requires(True)` is the build requirements followed by the runtime ones. It is `None` exactly when neither list is non-empty, which on a loaded object means both are absent |
| `RezMetafile.ConfigMetadata.GetBuildRequires` | bin/rez_metafile.py:129-133 | on a loaded object: absent, or a non-empty list whose element 0 is a string |
| `RezMetafile.ConfigMetadata.GetVariants` | bin/rez_metafile.py:135-139 | on a loaded object: absent, or a non-empty list whose element 0 is a list |
| `RezMetafile.ConfigMetadata.GetCommands` | bin/rez_metafile.py:141-145 | on a loaded object: absent or a non-empty list of raw templates |
| `RezMetafile.ConfigMetadata.GetStringReplaceCommands` | bin/rez_metafile.py:147-168 | `None` when there are no commands. Otherwise it returns a list of the same length and order, where element `i` is command `i` after the six ordered replacements. If a command is not a string, it fails at the first such index, as `.replace` raises |
| `RezMetafile.NewConfigMetadata` | bin/rez_metafile.py:31-107 | `ConfigMetadata(filename)` raises exactly the error `LoadDocument` gives; otherwise it returns a fresh, well-formed object whose attributes are `LoadDocument`'s result |
| `RezMetafile.RequiresScenario` | bin/rez_metafile.py:109-127 | build requirements `b1, b2` and requirement `r1` merge to `b1, b2, r1`; unmerged the result is `r1`; with neither list the merged result is `None` |
| `MetafileCache.Cache.constructor` | bin/rez_metafile.py:244 | the cache starts empty |
| `MetafileCache.Cache.GetCachedMetadata` | bin/rez_metafile.py:246-253 | a hit returns the stored object and changes nothing. A miss loads the file. On success it stores the fresh object under the exact filename. On failure it returns the error and leaves the cache unchanged. No entry is ever removed or replaced |
| `MetafileCache.CacheScenario` | bin/rez_metafile.py:246-253 | a failing load is not cached: after the file is fixed it loads, and a later request returns that same object even though the file is broken again |

## Left out

- Reading the file and parsing YAML (`yaml.load(open(filename).read())`, line 45) are
  outside the model. The caller supplies the outcome as a `Document`: a parsed value,
  an unreadable file (`IOError`) or a YAML syntax error.
- The environment lookup `os.getenv("USER", ...)` (line 156) is a parameter
  `userEnv`. The default `UNKNOWN_USER` is applied by `UserName`.
- Python's `int()` and `str()` on YAML scalars (lines 66, 77-100) are a `Coercions`
  parameter. `int()` has three outcomes: a value, `ValueError`/`TypeError` (caught by
  the loader), or `OverflowError` (not caught). `PythonLike` fixes only the cases
  every interpreter agrees on, including `.inf`, `-.inf` and `.nan`. Float
  truncation, whitespace in numeric strings and `str()` of containers are left to
  the parameter. A `str()` that raises (Python 2 `unicode` with non-ASCII text) is
  not modelled.
- `Value.Str` stands for Python 2 `str`. A string PyYAML returns as `unicode` would
  fail the element-0 checks of `requires` and `build_requires` in the source. The
  model does not make this distinction.
- Mapping keys are strings. A mapping whose only keys are non-strings behaves like a
  non-empty mapping without `config_version`, so it is not represented separately.
  Other YAML node types (dates, binary data, Python objects) are not modelled.
- `validate_authors` (lines 170-185) is not modelled. Its body is commented out, so
  it does nothing.
- Error message text is not modelled. Errors carry only their kind, the rule broken
  and, for `ConfigMetadataError`, the filename.
- The cache is an explicit object, not a module global. It has no locking, just like
  the source.
- `RezMetafile.ConfigMetadata.Populate`: the attributes left behind when the method
  fails are not specified. In the source that object is discarded with the exception.
