# letsencrypt-auto: release selection, verified download and the test server's path rules

This project models two small pieces of logic in the letsencrypt-auto bootstrap.

- **`letsencrypt_auto/pieces/fetch.py`** is the helper that letsencrypt-auto runs to find and download updates of itself.
  - `latest_stable_version` reads the PyPI JSON index. It keeps only the release keys made of digits and dots, and returns the greatest one under distutils `LooseVersion` ordering.
  - `verified_new_le_auto` fills the `LE_AUTO_DIR_TEMPLATE` `%s` template with a tag. It downloads `letsencrypt-auto` and its `.sig`, writes the public key, and has openssl check the signature.
  - `main` dispatches on `--latest-version` or `--le-auto-script TAG`. It turns an `ExpectedError` into exit code 1.
- **`letsencrypt_auto/tests/auto_test.py`** is the fixture code of the integration tests.
  - `RequestHandler.translate_path` maps a request path under the served folder.
  - `server_and_port` scans for a free port.
  - `ServerTestCase.server_url` builds the server's URL.
  - `run_le_auto` builds the environment that points letsencrypt-auto at the test server.

Modules:

- `Wrappers`: `Option` and `Result`.
- `Seqs`: small facts about concatenating and slicing sequences, shared by the proofs.
- `Decimal`: `str()` and `int()` on digit strings, and the round trip between them.
- `LooseVersion`: how `LooseVersion` parses a string made of digits and dots into a list of integers, and how Python orders those lists. A proper prefix is smaller, so `1.0 < 1.0.0`.
- `Fetch`:
  - the regex filter and Python's `max` over the keys' LooseVersions, which keeps the first of several equal maxima;
  - `%` formatting of the directory template with one string argument, including its `TypeError`/`ValueError` cases;
  - `verified_new_le_auto` as an ordered trace of fetches, writes and the signature check;
  - `main` as a function from `argv` to an exit code or an escaping exception.
- `PathTranslation`:
  - splitting at `?` and `#`;
  - Python 2 `urllib.unquote`;
  - `posixpath.normpath`, covering one or two leading slashes, `..` popping and `'.'` for the empty result;
  - the `filter(None, …)` and `split`/`join` loop. The loop is the method `RequestHandler.TranslatePath`, proved against the function `Translated`.
- `AutoTest`:
  - the first-fit port scan, as a method with a loop;
  - `ServerTestCase`, holding the class-level `port`;
  - the `run_le_auto` environment;
  - lemmas showing that this environment sends `fetch.py` to the test server, and that the handler serves the file it asks for.

Oracles. Some of the program's behaviour lives outside it and becomes a function parameter:

| parameter | stands for | result |
|---|---|---|
| `get: string -> Option<string>` | an HTTPS download | `None` is the `HTTPError`/`IOError` path |
| `releases: string -> Option<seq<string>>` | `json.loads(...)['releases'].iterkeys()` | the keys in dictionary iteration order, or `None` when the document has no such key or does not parse |
| `verifies: (string, string, string) -> bool` | the `openssl dgst -sha256 -verify` call | whether it succeeds |
| `binds: int -> bool` | constructing the `HTTPServer` on a port | whether the bind succeeds |
| `env: map<string, string>` | `os.environ` | |
| `publicKey: string` | `PUBLIC_KEY` | |

## Model

| member | source | states |
|---|---|---|
| Decimal.Value | letsencrypt_auto/pieces/fetch.py:83 | `int()` of a digit string, each digit worth less than ten: the value is 0 exactly when every digit is `0` |
| Decimal.Show | letsencrypt_auto/tests/auto_test.py:123 | `str(n)` is a non-empty digit string with no leading zero |
| Decimal.ValueOfShow | letsencrypt_auto/tests/auto_test.py:123 | reading back `str(n)` gives `n` |
| Decimal.ShowInjective | letsencrypt_auto/tests/auto_test.py:123 | distinct ports render to distinct strings |
| LooseVersion.RunLength | letsencrypt_auto/pieces/fetch.py:83 | the digit run that LooseVersion turns into one integer component is maximal: every character in it is a digit and the next one is not |
| LooseVersion.Components | letsencrypt_auto/pieces/fetch.py:83 | `LooseVersion.parse` on a key of digits and dots: one integer per maximal digit run, dots dropped, no more components than characters, and a dotless key is the single integer `int(key)` |
| LooseVersion.Less | letsencrypt_auto/pieces/fetch.py:83 | Python `<` on the parsed lists, which `max` uses: lexicographic, a proper prefix is smaller, and no list is below itself |
| LooseVersion.LessTransitive | letsencrypt_auto/pieces/fetch.py:83 | Python list ordering of versions is transitive |
| LooseVersion.LessTrichotomous | letsencrypt_auto/pieces/fetch.py:83 | any two distinct version lists are ordered one way or the other, so `max` has a well-defined answer |
| LooseVersion.LessIsStrictTotalOrder | letsencrypt_auto/pieces/fetch.py:83 | Python list ordering of versions is irreflexive, transitive and trichotomous, for all version lists |
| LooseVersion.Render | letsencrypt_auto/pieces/fetch.py:81-85 | every integer list has a non-empty dotted spelling that passes the release filter; the empty list is spelled `.` |
| LooseVersion.ComponentsOfRender | letsencrypt_auto/pieces/fetch.py:83 | parsing that spelling gives the list back, the empty list included |
| LooseVersion.TenBeatsNine | letsencrypt_auto/pieces/fetch.py:83 | `1.9` is below `1.10`: components compare as integers, not text |
| LooseVersion.ShorterIsOlder | letsencrypt_auto/pieces/fetch.py:83 | `1.0` is below `1.0.0` |
| Fetch.EnvGet | letsencrypt_auto/pieces/fetch.py:95-98 | `environ.get` returns the variable when it is set and the default otherwise |
| Fetch.DownloadFailure | letsencrypt_auto/pieces/fetch.py:65 | the message of the ExpectedError a failed download raises: "Couldn't download URL." |
| Fetch.HttpsGet | letsencrypt_auto/pieces/fetch.py:56-65 | a download either returns the document or, for every failure the getter can report, fails with the ExpectedError "Couldn't download URL." |
| Fetch.IsStable | letsencrypt_auto/pieces/fetch.py:85 | the filter `^[0-9.]+$`: a non-empty key of digits and dots only |
| Fetch.MaxIndex | letsencrypt_auto/pieces/fetch.py:83-85 | `max` over a prefix of the per-key candidates picks, if anything, a position inside the prefix that holds a candidate |
| Fetch.MaxIndexIsFirstMax | letsencrypt_auto/pieces/fetch.py:83-85 | `max` over a prefix finds nothing exactly when no key there passed the filter; otherwise its pick is at least every candidate and strictly above every earlier one, so Python's `max` keeps the first maximum |
| Fetch.MaxStep | letsencrypt_auto/pieces/fetch.py:83-85 | one step of `max`: a strictly greater newcomer becomes the first maximum of the longer prefix; otherwise the running maximum stays at least every candidate |
| Fetch.SelectLatest | letsencrypt_auto/pieces/fetch.py:83-85 | fails (with the non-Expected empty-`max` error) exactly when no key is stable; otherwise returns one of the keys that is stable, whose version is the greatest, and which is the first key with that version |
| Fetch.LatestStableVersion | letsencrypt_auto/pieces/fetch.py:74-85 | the index is fetched from `LE_AUTO_JSON_URL` or the PyPI default; a failed download is its ExpectedError, an unusable document is a non-Expected error, and otherwise the result is the selection over the release keys |
| Fetch.PrereleaseNeverSelected | letsencrypt_auto/pieces/fetch.py:81-85 | a key with anything but digits and dots (`1.0rc1`, `0.1.dev0`) is never returned |
| Fetch.NoStableKeyIsNotExpected | letsencrypt_auto/pieces/fetch.py:83-85 | with no stable key the failure is not an ExpectedError |
| Fetch.EveryVersionHasAKey | letsencrypt_auto/pieces/fetch.py:81-85 | every integer list, the empty one included, is the LooseVersion of some key that passes the filter |
| Fetch.Interpolate | letsencrypt_auto/pieces/fetch.py:95-98 | every failure of `template % tag` is a format error, never a download error |
| Fetch.InterpolateLiteral | letsencrypt_auto/pieces/fetch.py:95-98 | text without `%` is copied through unchanged |
| Fetch.FormatOnePlaceholder | letsencrypt_auto/pieces/fetch.py:95-98 | a template with exactly one `%s` gives the text before it, the tag, and the text after it |
| Fetch.FormatWithoutPlaceholder | letsencrypt_auto/pieces/fetch.py:95-98 | a template with no `%` and one argument raises "not all arguments converted" |
| Fetch.FormatTwoPlaceholders | letsencrypt_auto/pieces/fetch.py:95-98 | a template with two `%s` and one argument raises "not enough arguments" |
| Fetch.Format | letsencrypt_auto/pieces/fetch.py:95-98 | `template % tag` with the one argument still unused; it fails only with a format error |
| Fetch.ScriptDir | letsencrypt_auto/pieces/fetch.py:95-98 | the directory is `LE_AUTO_DIR_TEMPLATE`, or the GitHub default, formatted with the tag; it fails only with a format error |
| Fetch.Requests | letsencrypt_auto/pieces/fetch.py:99-100 | the URLs requested are exactly the fetch events of the run, in order |
| Fetch.RequestsAppend | letsencrypt_auto/pieces/fetch.py:99-100 | appending an event adds its URL only when it is a fetch |
| Fetch.VerifiedNewLeAuto | letsencrypt_auto/pieces/fetch.py:88-113 | a bad template fails before anything is fetched or written; a good one gives exactly the download run from the directory `template % tag`, where every failure the download and signature oracles can produce is an ExpectedError |
| Fetch.DownloadAndVerify | letsencrypt_auto/pieces/fetch.py:99-113 | once the directory is known, every failure the download and signature oracles can produce is an ExpectedError |
| Fetch.ScriptFetchFailedRun | letsencrypt_auto/pieces/fetch.py:99 | when the script download fails, the run stops after that one request |
| Fetch.SignatureFetchFailedRun | letsencrypt_auto/pieces/fetch.py:99-100 | when only the signature download fails, the script was written and nothing after the signature request happens |
| Fetch.BothFetchedRun | letsencrypt_auto/pieces/fetch.py:99-113 | when both downloads succeed, the run writes script, signature and key, then checks the signature, and fails with the signature message exactly when the check fails |
| Fetch.RunShapes | letsencrypt_auto/pieces/fetch.py:99-113 | the three cases above cover every run with a good template |
| Fetch.DownloadOrder | letsencrypt_auto/pieces/fetch.py:99-100 | the requests are a prefix of `[dir + "letsencrypt-auto", dir + "letsencrypt-auto.sig"]` |
| Fetch.TemplateUrlsInOrder | letsencrypt_auto/pieces/fetch.py:95-100 | with `d` the expanded `template % tag`, the requests of `verified_new_le_auto` are a prefix of `[d + "letsencrypt-auto", d + "letsencrypt-auto.sig"]` |
| Fetch.SignatureCheckedAfterBothFetches | letsencrypt_auto/pieces/fetch.py:99-110 | the signature check happens only after both requests, and is the last event |
| Fetch.SucceedsOnlyIfVerified | letsencrypt_auto/pieces/fetch.py:99-113 | the run succeeds exactly when both downloads succeed and the signature verifies, and then both files were written |
| Fetch.BadSignatureIsExpected | letsencrypt_auto/pieces/fetch.py:111-113 | a failed signature check is the ExpectedError "Couldn't verify signature of downloaded letsencrypt-auto." |
| Fetch.DefaultScriptUrls | letsencrypt_auto/pieces/fetch.py:95-98 | without `LE_AUTO_DIR_TEMPLATE` the directory is `https://raw.githubusercontent.com/letsencrypt/letsencrypt/TAG/letsencrypt-auto/` |
| Fetch.Main | letsencrypt_auto/pieces/fetch.py:116-129 | a missing `argv[1]` or `argv[2]` raises; an unknown flag returns 0 and prints nothing; for each action the exit code is 1 exactly when it raised an ExpectedError and 0 exactly when it succeeded; `--latest-version` prints the version; a non-Expected error always escapes |
| Fetch.Report | letsencrypt_auto/pieces/fetch.py:125-129 | only an ExpectedError is caught and becomes exit code 1 with its message printed; anything else propagates |
| Fetch.NoStableReleaseEscapesMain | letsencrypt_auto/pieces/fetch.py:119-127 | with an index that has no stable release, `main` does not return 1 for `--latest-version`: the ValueError escapes `main` uncaught |
| PathTranslation.Before | letsencrypt_auto/tests/auto_test.py:49-50 | `path.split(c, 1)[0]` is the longest prefix without `c`, and it ends where the first `c` is |
| PathTranslation.Split | letsencrypt_auto/tests/auto_test.py:52 | `str.split('/')` gives at least one part and no part contains `/` |
| PathTranslation.Join | letsencrypt_auto/tests/auto_test.py:52 | `c.join(parts)`, the inverse of `split` that `JoinSplit` and `SplitJoin` prove |
| PathTranslation.JoinSplit | letsencrypt_auto/tests/auto_test.py:52 | joining the parts of a split with the separator gives the string back |
| PathTranslation.SplitJoin | letsencrypt_auto/tests/auto_test.py:52 | splitting a join of separator-free parts gives the parts back |
| PathTranslation.BeforeAfterPrefix | letsencrypt_auto/tests/auto_test.py:49-50 | a prefix free of `c` is kept whole when cutting at the first `c` |
| PathTranslation.SplitAtSeparator | letsencrypt_auto/tests/auto_test.py:52 | splitting `x/y` gives the parts of `x` followed by the parts of `y` |
| PathTranslation.Unquote | letsencrypt_auto/tests/auto_test.py:51 | Python 2 `unquote`: each `%XX` with two hex digits becomes one character; the result is never longer than its input |
| PathTranslation.UnquoteLiteral | letsencrypt_auto/tests/auto_test.py:51 | `unquote` leaves text without `%` unchanged |
| PathTranslation.UnquoteAtSlash | letsencrypt_auto/tests/auto_test.py:51 | `unquote` works independently on either side of a `/` |
| PathTranslation.DecodeQuestionMark | letsencrypt_auto/tests/auto_test.py:51 | `unquote` turns `%3F` into `?` |
| PathTranslation.NormStep | letsencrypt_auto/tests/auto_test.py:51 | one `normpath` component step skips `''` and `.`, and otherwise only keeps, pops or pushes components |
| PathTranslation.Collapse | letsencrypt_auto/tests/auto_test.py:51 | `normpath` keeps only non-empty, slash-free components other than `.` |
| PathTranslation.CollapseAppend | letsencrypt_auto/tests/auto_test.py:51 | collapsing two runs of components in turn is collapsing them together |
| PathTranslation.InitialSlashes | letsencrypt_auto/tests/auto_test.py:51 | `normpath` keeps zero, one or two leading slashes, and a positive count exactly for an absolute path |
| PathTranslation.NormComponents | letsencrypt_auto/tests/auto_test.py:51 | the components `normpath` keeps are non-empty, slash-free and never `.` |
| PathTranslation.NormPath | letsencrypt_auto/tests/auto_test.py:51 | `posixpath.normpath` never returns the empty string, and an absolute path stays absolute |
| PathTranslation.NonEmpty | letsencrypt_auto/tests/auto_test.py:53 | `filter(None, words)` keeps the non-empty words, in order |
| PathTranslation.Words | letsencrypt_auto/tests/auto_test.py:49-53 | the words the loop runs over are non-empty and slash-free |
| PathTranslation.Kept | letsencrypt_auto/tests/auto_test.py:56-59 | every word the loop appends comes from the input words and is neither `.` nor `..` |
| PathTranslation.Tail | letsencrypt_auto/tests/auto_test.py:57 | `split(word)[1]` has no slash, and is the word itself when the word has none |
| PathTranslation.PathJoin | letsencrypt_auto/tests/auto_test.py:60 | `posixpath.join(a, b)`: an absolute `b` replaces `a`; otherwise the result starts with `a` and ends with `b` |
| PathTranslation.Names | letsencrypt_auto/tests/auto_test.py:49-59 | the words the loop keeps for a request path; `NamesAreNames` proves they are plain names |
| PathTranslation.Translated | letsencrypt_auto/tests/auto_test.py:39-61 | the value translate_path returns: the root joined with each kept name; `TranslatedUnderRoot` proves it stays under the root |
| PathTranslation.RequestHandler.constructor | letsencrypt_auto/tests/auto_test.py:27-33 | the handler serves the folder it was given as `root` |
| PathTranslation.RequestHandler.TranslatePath | letsencrypt_auto/tests/auto_test.py:39-61 | the loop's result is the root joined with the kept names of the decoded, normalised path |
| PathTranslation.KeptAppend | letsencrypt_auto/tests/auto_test.py:56-59 | one more word adds itself to the kept names, or nothing when it is `.` or `..` |
| PathTranslation.JoinAllAppend | letsencrypt_auto/tests/auto_test.py:60 | one more kept name is one more `join` |
| PathTranslation.NamesAreNames | letsencrypt_auto/tests/auto_test.py:52-59 | every component appended under the root is non-empty, has no `/`, and is neither `.` nor `..` |
| PathTranslation.JoinAllNames | letsencrypt_auto/tests/auto_test.py:54-60 | joining names onto the root is the root, one separator when needed, and the names joined by `/` |
| PathTranslation.JoinEndsWith | letsencrypt_auto/tests/auto_test.py:60 | a `/`-join of names is non-empty and does not end in `/` |
| PathTranslation.TranslatedUnderRoot | letsencrypt_auto/tests/auto_test.py:52-61 | the result is the root itself, or the root, a separator and a `/`-join of plain names that split back into those names; nothing climbs above the root |
| PathTranslation.TranslatedStartsWithRoot | letsencrypt_auto/tests/auto_test.py:54-61 | the result always starts with the root |
| PathTranslation.QueryIgnored | letsencrypt_auto/tests/auto_test.py:49 | everything from the first `?` is discarded |
| PathTranslation.FragmentIgnored | letsencrypt_auto/tests/auto_test.py:50 | everything from the first `#` is discarded when there is no `?` before it |
| PathTranslation.NormPathWords | letsencrypt_auto/tests/auto_test.py:51-53 | the words of a normalised path are its collapsed components, or `["."]` when nothing is left of a relative path; leading slashes add no word |
| PathTranslation.NonEmptyOfNonEmpty | letsencrypt_auto/tests/auto_test.py:53 | the filter keeps a list of non-empty words unchanged |
| PathTranslation.NonEmptyOfEmpties | letsencrypt_auto/tests/auto_test.py:53 | the filter drops a list of empty words entirely |
| PathTranslation.KeptOfDot | letsencrypt_auto/tests/auto_test.py:58-59 | a lone `.` adds nothing |
| PathTranslation.KeptOfName | letsencrypt_auto/tests/auto_test.py:58-60 | a plain name is kept |
| PathTranslation.KeptNames | letsencrypt_auto/tests/auto_test.py:58-60 | plain names are all kept, in order |
| PathTranslation.NamesFromComponents | letsencrypt_auto/tests/auto_test.py:49-53 | the names appended are the kept normpath components of the decoded path without query or fragment |
| PathTranslation.NamesOfPlainPath | letsencrypt_auto/tests/auto_test.py:49-53 | a path without `?` and `#` is only decoded and normalised |
| PathTranslation.SlashIsRoot | letsencrypt_auto/tests/auto_test.py:51-61 | `/` maps to the root itself |
| PathTranslation.ComponentsOfTrailingSlash | letsencrypt_auto/tests/auto_test.py:51 | a trailing slash adds no component |
| PathTranslation.TrailingSlashIgnored | letsencrypt_auto/tests/auto_test.py:51-53 | a trailing slash does not change the translation |
| PathTranslation.UnquoteDoubledSlash | letsencrypt_auto/tests/auto_test.py:51 | decoding keeps a doubled slash |
| PathTranslation.ComponentsOfDoubledSlash | letsencrypt_auto/tests/auto_test.py:51 | a doubled slash inside a path adds no component |
| PathTranslation.DoubledSlashIgnored | letsencrypt_auto/tests/auto_test.py:51-53 | a doubled slash does not change the translation |
| PathTranslation.DecodedQuestionMark | letsencrypt_auto/tests/auto_test.py:51 | `/a%3Fb` decodes to `/a?b` |
| PathTranslation.ComponentsOfOneName | letsencrypt_auto/tests/auto_test.py:51 | `/name` normalises to the single component `name` |
| PathTranslation.EscapedPathFacts | letsencrypt_auto/tests/auto_test.py:48-51 | an encoded `%3F` survives the `?` cut and decodes to a literal `?` |
| PathTranslation.EncodedQuestionMarkKept | letsencrypt_auto/tests/auto_test.py:48-51 | `/a%3Fb` is served as the file named `a?b`, because the cut comes before decoding |
| PathTranslation.JoinAvoids | letsencrypt_auto/tests/auto_test.py:49-51 | names free of a character join into a path free of it |
| PathTranslation.CollapseNames | letsencrypt_auto/tests/auto_test.py:51 | `normpath` keeps plain names unchanged |
| PathTranslation.ComponentsOfPlainPath | letsencrypt_auto/tests/auto_test.py:51 | `/n1/…/nk` normalises to exactly `n1 … nk` |
| PathTranslation.PlainPathTranslated | letsencrypt_auto/tests/auto_test.py:39-61 | `/n1/…/nk` with plain names is served from `root/n1/…/nk` |
| AutoTest.ServerAndPort | letsencrypt_auto/tests/auto_test.py:70-94 | returns the first port in [4443, 4543) that binds, so every lower port in the range failed; raises RuntimeError with its message exactly when no port in the range binds |
| AutoTest.ServerTestCase.SetupClass | letsencrypt_auto/tests/auto_test.py:109-112 | records the port the scan found, or leaves the port alone when the scan raised |
| AutoTest.ServerTestCase.ServerUrl | letsencrypt_auto/tests/auto_test.py:121-123 | the URL is `https://localhost:`, then `str(port)` (digits with no leading zero), then `/`, so the port can be read back from it |
| AutoTest.ServerUrlDeterminesPort | letsencrypt_auto/tests/auto_test.py:123 | two test cases with the same URL have the same port |
| AutoTest.ServerUrlHasNoPercent | letsencrypt_auto/tests/auto_test.py:123 | the server URL holds no `%`, so it is safe inside a `%s` template |
| AutoTest.RunLeAutoEnv | letsencrypt_auto/tests/auto_test.py:139-141 | the environment has exactly three keys: `XDG_DATA_HOME` is the venv directory, `LE_AUTO_JSON_URL` is the base URL followed by `letsencrypt/json`, and `LE_AUTO_DIR_TEMPLATE` is the base URL followed by `%s/` |
| AutoTest.EnvRedirectsFetch | letsencrypt_auto/tests/auto_test.py:139-141 | for a base URL without `%`, under that environment the index comes from `BASE letsencrypt/json` and the scripts from `BASE TAG/` |
| AutoTest.FetchUsesTestServer | letsencrypt_auto/tests/auto_test.py:121-141 | with the server's own URL as base, the scripts for a tag are fetched from `https://localhost:PORT/TAG/` |
| AutoTest.TwoNamesServed | letsencrypt_auto/tests/auto_test.py:39-61 | a request for `/DIR/NAME` with two plain names is served from `ROOT/DIR/NAME` |
| AutoTest.ScriptServedFromRoot | letsencrypt_auto/tests/auto_test.py:39-61 | the script request for a plain tag is served from `ROOT/TAG/letsencrypt-auto` |

## Left out

- HTTPS serving and fetching. `HTTPServer`, `serve_forever` on a thread, `shutdown`/`join`, `ssl.wrap_socket` and urllib2 are I/O and concurrency. Downloads and binds are oracle parameters.
- `Fetch.HttpsGet` and `Fetch.DownloadAndVerify`: the getter and the signature check are oracles that can only succeed or fail in the caught way, so "every failure is an ExpectedError" holds only for those failures. Three other routes escape `main` as uncaught exceptions in Python and are not modelled: urllib2's `ValueError` for a URL without a known scheme (only `HTTPError` and `IOError` are caught at fetch.py:64), an `IOError` from `write` when the directory of `argv[0]` is not writable (fetch.py:70), and an `OSError` from `check_call` when `openssl` is missing (only `CalledProcessError` is caught at fetch.py:111).
- `HttpsGetter.__init__`, which removes the plain-HTTP handler from the opener. It is a library object whose handler list is not visible here.
- The openssl signature check, an RSA PKCS#1 v1.5 signature over SHA-256. It is a boolean oracle, and no cryptography is modelled.
- `write`. File writes appear as `Write` events in the run trace; no filesystem is modelled.
- The `PUBLIC_KEY` constant and its `LE_AUTO_PUBLIC_KEY` lookup. The key is the parameter `publicKey`.
- `json.loads`. The release keys come from an oracle, in the dictionary's iteration order.
- `Fetch.LatestStableVersion`: does not tell a malformed JSON document (`ValueError`) from a missing `releases` key (`KeyError`). Both are the one non-Expected error `BadMetadata`.
- `Fetch.IsStable`: models `^[0-9.]+$` as "non-empty and only digits and dots". Python's `$` also matches before a final newline, so the real filter also admits a key such as `"1.2\n"`. That is left out.
- `Fetch.Interpolate`: models the conversions `%s` and `%%`. Every other conversion character is an "unsupported format character" error. Python would accept some of them with a string argument, such as `%r`, or with flags and widths, such as `%5s`. After the one `%s` has taken the argument, Python reports a second conversion of any kind as "not enough arguments for format string", because it fetches the argument before it looks at the conversion character; the model reports an unknown one, such as the `%q` in `%s%q`, as "unsupported format character". Both are format errors that escape `main`.
- `Fetch.Report`: records only the message (`exc.args[0]`). The wrapped exception that `main` also prints is not modelled.
- `Fetch.Main`: the process status after an escaping exception is not modelled; it is `Raised`. `exit(main())` then ends with status 1 after a traceback, the same status as for an ExpectedError, so a calling shell cannot tell the two apart. `dirname(argv[0])`, the download directory, is not modelled because writes are only events.
- `splitdrive` in `translate_path`. It is the identity on posix, so it is not modelled. `split` of a slash-free word is modelled as the identity through `Tail`.
- `tests_dir`, `ephemeral_dir`, `teardown_class` and the `check_call` subprocess in `run_le_auto`. These are filesystem, process and thread effects.
- `signed`, an empty stub. `test_all` and `test_thing` do not parse.
- `AutoTest.ServerTestCase.SetupClass`: does not model the server object or the thread it starts. Before `setup_class` runs, the class has no `port` attribute, but the model's `port` field always holds a number.
