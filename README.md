# gsutil test base class

A model of `GsUtilTestCase`, the base class of gsutil's unit and integration
tests. The class hands out most-likely-unique temporary names for buckets,
objects, directories and files. It tracks the temporary directories a test
creates, from `setUp` to `tearDown`. It also creates temporary directories
populated with test files, and single temporary files with chosen contents,
times, ownership and mode.

The project is split into modules that follow the pieces of that class:

- `Numerals` (numerals.dfy): the digit formatting and parsing the class relies on. This covers `'%08x'` for random suffixes, `'%d'` for default file contents, and `int(s, 8)` / `int(s)` for modes.
- `Encoding` (encoding.dfy): `str.encode('ascii')` and the UTF-8 encoding `six.ensure_binary` applies to text contents.
- `Paths` (paths.dfy): `os.path.join` on POSIX, and a file name given either as a string or as a tuple of components.
- `FileActions` (file_actions.dfy): the file-system effects as log entries, and CreateTempFile's decisions about `utime`, `chown` and `chmod`. It includes the `NA_ID` / `NA_MODE` sentinels.
- `TempNames` (temp_names.dfy): `MakeRandomTestString`, `MakeTempName` and `MakeTempUnicodeName` as pure functions of the random draw.
- `TestCase` (test_case.dfy): the class `GsUtilTestCase`.
  - Its fields:
    - `tempdirs` is the directories to remove at tearDown.
    - `drawn` counts the random values used so far.
    - `dirsMade` counts the directories mkdtemp has made.
    - `fsLog` is the file-system actions issued so far, in order.
  - Its methods: `SetUp`, `TearDown`, the name makers, `CreateTempDir` and `CreateTempFile`.
  - Each method's contract gives its new state in terms of specification functions: `NewTempDir`, `FileList`, `Resolve`, `WriteAll`, `TargetDir`, `UsedName`, `WrittenData` and `AttributeActions`.
  - Lemmas state what those functions mean:
    - how many files are written;
    - where each file goes;
    - which contents each file gets;
    - when names are drawn.

Everything the class takes from its surroundings is part of the immutable `env` record:

- the test method's name;
- the stream of `random.randrange(256**4)` values;
- the directory and names `tempfile.mkdtemp` uses;
- the bucket-name coercion of the storage test utilities.

## Model

| member | source | states |
|---|---|---|
| Numerals.DigitChar | gslib/tests/testcase/base.py:90 | The digit written for d < 16 is a lower-case hex digit whose value is d. |
| Numerals.Parse | gslib/tests/testcase/base.py:224 | int(s, base) of a non-empty n-digit string is below base^n. |
| Numerals.FormatPadded | gslib/tests/testcase/base.py:90 | '%0<w>x' gives exactly w digits of the base. |
| Numerals.Format | gslib/tests/testcase/base.py:142 | '%d' gives at least one digit, "0" for zero, and no leading zero otherwise. |
| Numerals.ParseFormatPadded | gslib/tests/testcase/base.py:90 | Reading a zero-padded numeral back gives any value that fits the width. |
| Numerals.FormatPaddedParse | gslib/tests/testcase/base.py:224 | Every digit string is the zero-padded numeral of its own value. |
| Numerals.ParseFormat | gslib/tests/testcase/base.py:142 | int('%d' % n) == n. |
| Numerals.FormatInjective | gslib/tests/testcase/base.py:142 | Different values have different '%d' numerals. |
| Encoding.Ascii | gslib/tests/testcase/base.py:142 | str.encode('ascii') gives one byte per character. |
| Encoding.AsciiDecode | gslib/tests/testcase/base.py:142 | bytes.decode('ascii') gives one character per byte. |
| Encoding.AsciiRoundTrip | gslib/tests/testcase/base.py:142 | Decoding the ASCII encoding of an ASCII string gives it back. |
| Encoding.AsciiInjective | gslib/tests/testcase/base.py:142 | Distinct ASCII strings encode to distinct bytes. |
| Encoding.Utf8 | gslib/tests/testcase/base.py:212-213 | six.ensure_binary of text: its UTF-8 bytes. Utf8Length bounds their number, Utf8OfAscii pins them on ASCII text and Utf8Append makes the encoding compositional. |
| Encoding.Utf8CharShape | gslib/tests/testcase/base.py:212-213 | One character encodes to 1 to 4 bytes. It is a single byte, the character itself, exactly when it is ASCII. |
| Encoding.Utf8Length | gslib/tests/testcase/base.py:212-213 | The UTF-8 encoding of s has between len(s) and 4 len(s) bytes. |
| Encoding.Utf8OfAscii | gslib/tests/testcase/base.py:212-213 | On ASCII text, the UTF-8 and ASCII encodings agree. |
| Encoding.Utf8Append | gslib/tests/testcase/base.py:212-213 | The encoding of a concatenation is the concatenation of the encodings. |
| FileActions.PayloadBytes | gslib/tests/testcase/base.py:212-216 | The bytes a write puts in the file: raw bytes as given, text as its UTF-8 encoding, whose properties are Utf8Length, Utf8OfAscii and Utf8Append. |
| Paths.Join1Shape | gslib/tests/testcase/base.py:205 | os.path.join(a, b) is b when b is absolute. Otherwise it is a, then b, with one '/' between them exactly when a is non-empty and does not end in '/'. |
| Paths.Join1 | gslib/tests/testcase/base.py:205 | os.path.join(tmpdir, file_name); its shape is stated by Join1Shape. |
| Paths.Falsy | gslib/tests/testcase/base.py:200 | Python's truth test in `file_name or ...`: false exactly for the empty string and the empty tuple. ResolveAt, ResolveTruthy and NameOrGenerated state that exactly the false names take a draw. |
| Paths.Join | gslib/tests/testcase/base.py:203 | os.path.join(tmpdir, *file_name); JoinStaysInside states that relative components stay below the directory. |
| Paths.FilePath | gslib/tests/testcase/base.py:202-205 | The tuple or string branch; SingletonTuple makes them agree on one component and FilePathInside keeps the path inside the directory. |
| Paths.SingletonTuple | gslib/tests/testcase/base.py:202-205 | A one-component tuple gives the same path as the bare string. |
| Paths.JoinStaysInside | gslib/tests/testcase/base.py:203 | Joining relative components onto a non-empty directory keeps the directory as a prefix, followed by '/' where needed. |
| Paths.FilePathInside | gslib/tests/testcase/base.py:202-205 | A relative string or tuple name gives a path inside the directory. |
| FileActions.ChownDecision | gslib/tests/testcase/base.py:221-222 | chown is issued iff uid != NA_ID or gid != NA_ID. When issued, it carries both ids unchanged. |
| FileActions.IntOf | gslib/tests/testcase/base.py:223 | int(mode): the NA_MODE integer itself, or a mode string read in base 10; ChmodDecision shows it differs from NA_MODE exactly for a string. |
| FileActions.AttributeActions | gslib/tests/testcase/base.py:217-224 | The actions after the write, in source order; ChownDecision, ChmodDecision, TimesDecision and DefaultsChangeNothing state when each is issued and with what. |
| FileActions.ChmodDecision | gslib/tests/testcase/base.py:223-224 | chmod is issued iff a mode string was given, never for NA_MODE. The value is the string read in base 8, below 0o1000, and its 3 octal digits are the given string. |
| FileActions.TimesDecision | gslib/tests/testcase/base.py:217-219 | utime is issued iff mtime is given, and it sets atime and mtime both to mtime. |
| FileActions.DefaultsChangeNothing | gslib/tests/testcase/base.py:171 | With mtime, mode, uid and gid all at their defaults, nothing follows the write. |
| TempNames.MakeRandomTestString | gslib/tests/testcase/base.py:88-90 | The suffix is exactly 8 lower-case hex digits and reads back in base 16 as the draw. |
| TempNames.RandomTestStringOnto | gslib/tests/testcase/base.py:88-90 | Every 8-hex-digit string is the suffix of the draw it encodes, so the suffix carries all 32 bits. |
| TempNames.FullName | gslib/tests/testcase/base.py:106-107 | '{prefix}gsutil-test-{method}-{kind}'; NameBodyIsPrefix and ShortNameUntruncated state how the body and the name are cut from it. |
| TempNames.NameBody | gslib/tests/testcase/base.py:106-108 | The full name cut to 54 characters; NameBodyIsPrefix states it is the prefix of length min(len, 54). |
| TempNames.MakeTempName | gslib/tests/testcase/base.py:106-114 | The name for a kind, prefix and draw; TempNameShape, SuffixRecoversDraw, DistinctDrawsDistinctNames and ShortNameUntruncated state its length, suffix and uniqueness for non-bucket kinds. |
| TempNames.NameBodyIsPrefix | gslib/tests/testcase/base.py:106-108 | Before the suffix, the name body is a prefix of '{prefix}gsutil-test-{method}-{kind}' of length min(len, MAX_BUCKET_LENGTH - 9 = 54). |
| TempNames.TempNameShape | gslib/tests/testcase/base.py:106-109 | A non-bucket name has 9 to 63 characters and is the body, '-', and the whole random suffix. |
| TempNames.MakeTempUnicodeName | gslib/tests/testcase/base.py:117-118 | The unicode name is never plain ASCII, and without its last character it is the plain name. |
| TempNames.UnicodeNameShape | gslib/tests/testcase/base.py:117-118 | A non-bucket unicode name has at most 64 characters, ends in '材', and the 8 hex digits before that decode to the draw. |
| TempNames.SuffixRecoversDraw | gslib/tests/testcase/base.py:108-109 | The last 8 characters of a non-bucket name decode to the draw, because truncation never reaches the suffix. |
| TempNames.DistinctDrawsDistinctNames | gslib/tests/testcase/base.py:92-114 | Different draws give different non-bucket names, whatever the method, kind and prefix. |
| TempNames.ShortNameUntruncated | gslib/tests/testcase/base.py:106-109 | A full name of at most 54 characters is kept whole. |
| TestCase.NewTempDirNonEmpty | gslib/tests/testcase/base.py:133 | The directory CreateTempDir makes has a non-empty path, so CreateTempFile writes into it rather than making another. |
| TestCase.NewTempDir | gslib/tests/testcase/base.py:133 | The path mkdtemp returns for the directory prefix of a draw; NewTempDirNonEmpty states it is never empty. |
| TestCase.TestFileText | gslib/tests/testcase/base.py:142 | 'test %d' % i is ASCII, so it can be encoded as ASCII. |
| TestCase.TestFileBytes | gslib/tests/testcase/base.py:142 | File i's default contents; TestFileBytesIndex and TestFileBytesDistinct state that they name i and differ between files. |
| TestCase.TargetDir | gslib/tests/testcase/base.py:199 | `tmpdir or self.CreateTempDir()`; CreateTempFile's contract states a directory is made and tracked exactly when tmpdir is empty. |
| TestCase.UsedName | gslib/tests/testcase/base.py:200 | `file_name or MakeTempName('file')`; NameOrGenerated and ResolveAt state which draw a false name takes. |
| TestCase.WrittenData | gslib/tests/testcase/base.py:210-213 | The given contents, or MakeTempName('contents') as text; ContentsOrGenerated states the draw it takes and ExplicitContentsEverywhere the bytes of given contents. |
| TestCase.ToPayload | gslib/tests/testcase/base.py:212-213 | six.ensure_binary on given contents; ExplicitContentsEverywhere states every file of CreateTempDir gets exactly this payload. |
| TestCase.ContentsFor | gslib/tests/testcase/base.py:140-142 | The contents of file i in CreateTempDir; ExplicitContentsEverywhere and DefaultContentsDistinct state what they are. |
| TestCase.FileList | gslib/tests/testcase/base.py:135-138 | The list CreateTempDir iterates; CountPlan and GeneratedWrites state it gives max(n, 0) names drawn in turn, NamesPlan that a list is used as given. |
| TestCase.GeneratedCount | gslib/tests/testcase/base.py:138 | len(range(n)) = max(n, 0) for an int, 0 for a list; ListedFiles and CountPlan state that exactly this many names are drawn and written. |
| TestCase.TestFileBytesIndex | gslib/tests/testcase/base.py:142 | File i's default contents decode as "test " followed by a numeral whose value is i. |
| TestCase.TestFileBytesDistinct | gslib/tests/testcase/base.py:142 | Different indices get different default contents. |
| TestCase.Resolve | gslib/tests/testcase/base.py:139-144 | The names used for a list, one per entry. |
| TestCase.ResolveAt | gslib/tests/testcase/base.py:200 | Entry i keeps its name if true. A false entry takes the file name of the draw after the false entries before it. |
| TestCase.ResolveSnoc | gslib/tests/testcase/base.py:139-144 | One more entry adds exactly its own name, drawn after those of the earlier entries. |
| TestCase.ResolveTruthy | gslib/tests/testcase/base.py:200 | A list without false names is used as given and draws nothing. |
| TestCase.WriteAllSnoc | gslib/tests/testcase/base.py:139-144 | One more name adds one write, at the end, with the next index's contents. |
| TestCase.WriteAllStep | gslib/tests/testcase/base.py:139-144 | One more loop turn appends the write of entry i to the log and takes a draw iff the entry is false. |
| TestCase.WriteAll | gslib/tests/testcase/base.py:139-144 | The writes of the enumerate loop; CountPlan, NamesPlan and WriteAllSnoc state their number, order, paths and contents. |
| TestCase.RemovalOrder | gslib/tests/testcase/base.py:76-79 | tearDown removes every tracked directory once, newest first: removal k is of dirs[len-1-k]. |
| TestCase.GeneratedResolve | gslib/tests/testcase/base.py:138 | Generated names are never false, so writing them draws nothing further. |
| TestCase.GeneratedWrites | gslib/tests/testcase/base.py:138-144 | For an int n, write i goes to the name of draw d+i, with contents i. |
| TestCase.CountPlan | gslib/tests/testcase/base.py:135-144 | test_files = n gives exactly max(n, 0) writes. Write i goes to the i-th generated name with contents i, and no further names are drawn. |
| TestCase.NamesPlan | gslib/tests/testcase/base.py:139-144 | A list of true names gives one write per entry, in order, at the path that entry names. |
| TestCase.ExplicitContentsEverywhere | gslib/tests/testcase/base.py:140-144 | Explicit contents go into every file unchanged, the same payload whatever the index (text written as its UTF-8 bytes). |
| TestCase.DefaultContentsDistinct | gslib/tests/testcase/base.py:140-142 | Without explicit contents, no two files of one directory get the same bytes. |
| TestCase.GsUtilTestCase.constructor | gslib/tests/testcase/base.py:59 | A fresh test case tracks no directories, has drawn nothing and has issued no action. |
| TestCase.GsUtilTestCase.SetUp | gslib/tests/testcase/base.py:74 | setUp starts the tracked-directory list empty. |
| TestCase.GsUtilTestCase.TearDown | gslib/tests/testcase/base.py:76-79 | The loop leaves the list empty and appends the removals newest first. A second call appends nothing. |
| TestCase.GsUtilTestCase.NextRandom | gslib/tests/testcase/base.py:90 | Returns the next value of the random stream and advances it by one. |
| TestCase.GsUtilTestCase.MakeRandomTestString | gslib/tests/testcase/base.py:88-90 | The 8-hex-digit suffix of the next draw, using exactly one draw. |
| TestCase.GsUtilTestCase.MakeTempName | gslib/tests/testcase/base.py:92-114 | The temporary name of the next draw for the test method, kind and prefix, using exactly one draw. |
| TestCase.GsUtilTestCase.MakeTempUnicodeName | gslib/tests/testcase/base.py:117-118 | The unicode name of the next draw, using exactly one draw. |
| TestCase.GsUtilTestCase.NameOrGenerated | gslib/tests/testcase/base.py:200 | `file_name or MakeTempName('file')`: a draw is taken iff the name is false. |
| TestCase.GsUtilTestCase.ContentsOrGenerated | gslib/tests/testcase/base.py:210-213 | The given contents, or MakeTempName('contents') as text. A draw is taken iff none were given. |
| TestCase.GsUtilTestCase.MakeTrackedDir | gslib/tests/testcase/base.py:133-134 | mkdtemp with a fresh directory prefix. Exactly the new path is appended to tempdirs, with earlier entries unchanged. |
| TestCase.GsUtilTestCase.CreateTempDir | gslib/tests/testcase/base.py:120-145 | Appends the new directory to tempdirs. Logs its creation and then the writes of the resolved file list, in order. Draws are one for the directory, then one per generated or false name. |
| TestCase.GsUtilTestCase.ListedFiles | gslib/tests/testcase/base.py:135-138 | A list is used as given. An int n gives max(n, 0) names drawn in turn. |
| TestCase.GsUtilTestCase.WriteListedFiles | gslib/tests/testcase/base.py:139-144 | The enumerate loop writes entry i of the list, resolved, with contents i, in order. tempdirs is left alone. |
| TestCase.GsUtilTestCase.WriteListedFile | gslib/tests/testcase/base.py:140-144 | One loop turn is one write with contents i and no attribute change. |
| TestCase.GsUtilTestCase.CreateTempFile | gslib/tests/testcase/base.py:170-225 | Makes and tracks a directory iff tmpdir is empty. Writes the given or generated contents at the joined path, followed by exactly the attribute actions. |
| TestCase.GsUtilTestCase.WriteInto | gslib/tests/testcase/base.py:200-225 | Name, write, then utime/chown/chmod as decided, into a known directory. |

## Left out

- The bucket-name coercion (`util.MakeBucketNameValid`) is a parameter of the environment. Nothing is claimed about bucket names, so TempNames.TempNameShape, SuffixRecoversDraw, DistinctDrawsDistinctNames and ShortNameUntruncated require a kind other than "bucket".
- `NA_ID` and `NA_MODE` are taken to be -1. gslib/utils/posix_util.py, which defines them, is not part of this model.
- File-system effects are log entries, not changes to a file system:
  - `os.makedirs` for a missing parent directory is part of the write.
  - `shutil.rmtree(..., ignore_errors=True)` is one removal entry, and its errors are not modelled.
  - The path `tempfile.mkdtemp` returns is the temp root joined with the prefix and a name taken from the environment.
  - Whether a path already exists is not tracked.
- Randomness: `random.randrange(256**4)` is the k-th value of a stream given by the environment, and mkdtemp's own random part likewise.
- TestCase.GsUtilTestCase.CreateTempFile: `mode` must be NA_MODE or a string of three octal digits, as its documentation demands of callers. Another integer would make `int(mode, 8)` raise, and that error path is not modelled. `gid` is taken as an integer, so `int(gid)` is the identity.
- FileActions.AttributeActions: `mtime` is an integer number of seconds. `os.utime` also accepts a float, which the model does not represent; the decision to call it does not depend on the value.
- `tmpdir` and `file_name` values of None and '' are one case: the empty string and the empty tuple. Python treats all of them as false.
- CreateTempDir with a string for `test_files` (which Python would iterate character by character) is not modelled. `test_files` is either an int or a list of names.
- Text written as contents is logged unencoded (`Payload.Utf8Text`). `PayloadBytes` gives its UTF-8 bytes. Encoding.Utf8 has only the facts listed above proved about it, not decoding.
- Numerals.Parse: the empty string reads as 0, where Python's `int('', base)` raises. No caller passes an empty string: modes have three digits and random suffixes eight.
- Numerals.FormatPadded drops digits beyond the width. The formatting this models only ever receives values that fit, as MakeRandomTestString shows.
- `CreateTempFifo` (I/O only, and unsupported on Windows) is not modelled.
- `assertRegexpMatchesWithFlags`, `assertNumLines` and `GetTestMethodName` are left out. The first two depend on the `re` engine and unittest's failure machinery. The method name is a field of the environment.
- `setUp`'s provider and API selection is left out because it reads external configuration. `setUp` is modelled only as resetting `tempdirs`.
- The `NotParallelizable` and `RequiresIsolation` decorators only tag functions for the test runner.
- The `six` compatibility shims are left out. Strings are Unicode text, and bytes are `seq<byte>`.
- The help-topic modules under gslib/addlhelp are constant records with no behaviour.
