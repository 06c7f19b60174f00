/**
  letsencrypt_auto/pieces/fetch.py: pick the latest stable release from the
  package index, download a tagged letsencrypt-auto script and its detached
  signature, and map the selected command-line action to an exit code.

  The network, JSON decoding and the openssl signature check are parameters:
  `Getter` answers a URL with the document or None (an HTTP or I/O failure),
  `ReleaseKeys` decodes the index document into the keys of its `releases`
  object in iteration order, or None when decoding or the lookup fails, and
  `SignatureCheck` says whether a signature verifies over a script under a key.
*/
module Fetch {
  import opened Wrappers
  import opened Decimal
  import opened LooseVersion
  import Seqs

  /** The exceptions that can leave the modelled functions. */
  datatype Error =
    | Expected(message: string)        // ExpectedError: reported by main as exit code 1
    | NoStableRelease                  // ValueError from max() over an empty sequence
    | BadTemplate(reason: string)      // TypeError or ValueError from `%` formatting
    | BadMetadata                      // ValueError or KeyError while reading the index
    | MissingArgument                  // IndexError on argv

  type Environ = map<string, string>
  type Getter = string -> Option<string>
  type ReleaseKeys = string -> Option<seq<string>>
  type SignatureCheck = (string, string, string) -> bool

  const JsonUrlVariable := "LE_AUTO_JSON_URL"
  const DefaultJsonUrl := "https://pypi.python.org/pypi/letsencrypt/json"
  const DirTemplateVariable := "LE_AUTO_DIR_TEMPLATE"
  const RawGitHub := "https://raw.githubusercontent.com/"
  const RepoPath := "letsencrypt/letsencrypt/"
  const DefaultDirTemplate := RawGitHub + RepoPath + "%s" + "/letsencrypt-auto/"
  const ScriptName := "letsencrypt-auto"
  const SignatureName := "letsencrypt-auto.sig"
  const PublicKeyName := "public_key.pem"
  const SignatureFailure := "Couldn't verify signature of downloaded letsencrypt-auto."

  /** `environ.get(name, default)` */
  function EnvGet(env: Environ, name: string, default: string): (v: string)
    ensures name in env ==> v == env[name]
    ensures name !in env ==> v == default
  {
    if name in env then env[name] else default
  }

  /** The message HttpsGetter.get puts in the ExpectedError it raises. */
  function DownloadFailure(url: string): string {
    "Couldn't download " + url + "."
  }

  /** HttpsGetter.get: the document, or an ExpectedError naming the URL. */
  function HttpsGet(get: Getter, url: string): (r: Result<string, Error>)
    ensures r.Success? <==> get(url).Some?
    ensures r.Success? ==> r.value == get(url).value
    ensures r.Failure? ==> r.error == Expected(DownloadFailure(url))
  {
    match get(url)
    case Some(doc) => Success(doc)
    case None => Failure(Expected(DownloadFailure(url)))
  }

  // ---------------------------------------------------------------------
  // latest_stable_version

  /** `re.match('^[0-9.]+$', r)` for keys without a trailing newline. */
  predicate IsStable(key: string) {
    |key| > 0 && ReleaseChars(key)
  }

  function Version(key: string): seq<nat>
    requires IsStable(key)
  {
    Components(key)
  }

  /** What max() compares a release key by: its LooseVersion when the
      filter keeps the key, nothing when the filter drops it. */
  function Candidate(key: string): (c: Option<seq<nat>>)
    ensures c.Some? <==> IsStable(key)
    ensures c.Some? ==> c.value == Version(key)
  {
    if IsStable(key) then Some(Version(key)) else None
  }

  /**
    Python's max() over the candidates among cands[..n]: the running maximum
    is replaced only by a strictly greater version, so the FIRST candidate of
    the greatest version wins.
  */
  function MaxIndex(cands: seq<Option<seq<nat>>>, n: nat): (r: Option<nat>)
    requires n <= |cands|
    ensures r.Some? ==> r.value < n && cands[r.value].Some?
  {
    if n == 0 then None
    else
      var prev := MaxIndex(cands, n - 1);
      var last := cands[n - 1];
      if last.None? then prev
      else if prev.None? then Some(n - 1)
      else if Less(cands[prev.value].value, last.value) then Some(n - 1)
      else prev
  }

  /** Whether i is the index max() settles on among cands[..n]. */
  predicate IsFirstMax(cands: seq<Option<seq<nat>>>, n: nat, i: nat)
    requires i < n <= |cands| && cands[i].Some?
  {
    && (forall j :: 0 <= j < n && cands[j].Some? ==>
          LessOrEqual(cands[j].value, cands[i].value))
    && (forall j :: 0 <= j < i && cands[j].Some? ==>
          Less(cands[j].value, cands[i].value))
  }

  /** max() over cands[..n] finds nothing exactly when there is no
      candidate; otherwise it finds the first one of the greatest version. */
  lemma {:induction false} MaxIndexIsFirstMax(cands: seq<Option<seq<nat>>>, n: nat)
    requires n <= |cands|
    ensures var r := MaxIndex(cands, n);
            && (r.None? <==> forall j :: 0 <= j < n ==> cands[j].None?)
            && (r.Some? ==> IsFirstMax(cands, n, r.value))
  {
    if n > 0 {
      MaxIndexIsFirstMax(cands, n - 1);
      var prev := MaxIndex(cands, n - 1);
      if cands[n - 1].None? {
        if prev.Some? {
          forall j | 0 <= j < n && cands[j].Some?
            ensures LessOrEqual(cands[j].value, cands[prev.value].value)
          {
            assert j < n - 1;
          }
        }
      } else if prev.None? {
        forall j | 0 <= j < n && cands[j].Some?
          ensures LessOrEqual(cands[j].value, cands[n - 1].value)
        {
          assert j == n - 1;
        }
      } else {
        MaxStep(cands, n, prev.value);
      }
    }
  }

  /** One step of max(): a strictly greater newcomer beats everything before
      it; otherwise the running maximum is at least every candidate so far. */
  lemma MaxStep(cands: seq<Option<seq<nat>>>, n: nat, p: nat)
    requires 0 < n <= |cands| && p < n - 1
    requires cands[p].Some? && cands[n - 1].Some?
    requires forall j :: 0 <= j < n - 1 && cands[j].Some? ==>
               LessOrEqual(cands[j].value, cands[p].value)
    ensures Less(cands[p].value, cands[n - 1].value) ==>
              IsFirstMax(cands, n, n - 1)
    ensures !Less(cands[p].value, cands[n - 1].value) ==>
              forall j :: 0 <= j < n && cands[j].Some? ==>
                LessOrEqual(cands[j].value, cands[p].value)
  {
    var vp, vn := cands[p].value, cands[n - 1].value;
    if Less(vp, vn) {
      forall j | 0 <= j < n - 1 && cands[j].Some?
        ensures Less(cands[j].value, vn)
      {
        if cands[j].value != vp {
          LessTransitive(cands[j].value, vp, vn);
        }
      }
    } else {
      LessTrichotomous(vp, vn);
    }
  }

  /**
    Lines 83-85: the greatest stable release key, compared as LooseVersion;
    max() over no stable key at all raises ValueError.
  */
  function SelectLatest(keys: seq<string>): (r: Result<string, Error>)
    ensures r.Failure? <==> forall k :: k in keys ==> !IsStable(k)
    ensures r.Failure? ==> r.error == NoStableRelease
    ensures r.Success? ==> r.value in keys && IsStable(r.value)
    ensures r.Success? ==> forall k :: k in keys && IsStable(k) ==>
                             LessOrEqual(Version(k), Version(r.value))
    ensures r.Success? ==> exists i :: 0 <= i < |keys| && keys[i] == r.value &&
                             forall j :: 0 <= j < i && IsStable(keys[j]) ==>
                               Less(Version(keys[j]), Version(r.value))
  {
    var cands := Candidates(keys);
    MaxIndexIsFirstMax(cands, |cands|);
    match MaxIndex(cands, |cands|)
    case None =>
      NoCandidates(keys);
      Failure(NoStableRelease)
    case Some(i) =>
      FirstMaxKey(keys, i);
      Success(keys[i])
  }

  /** The key applied to every release key, in order. */
  function Candidates(keys: seq<string>): (cands: seq<Option<seq<nat>>>)
    ensures |cands| == |keys|
    ensures forall j :: 0 <= j < |keys| ==> cands[j] == Candidate(keys[j])
  {
    seq(|keys|, j requires 0 <= j < |keys| => Candidate(keys[j]))
  }

  lemma NoCandidates(keys: seq<string>)
    requires forall j :: 0 <= j < |keys| ==> Candidates(keys)[j].None?
    ensures forall k :: k in keys ==> !IsStable(k)
  {
    forall k | k in keys
      ensures !IsStable(k)
    {
      var j :| 0 <= j < |keys| && keys[j] == k;
      assert Candidates(keys)[j] == Candidate(k);
    }
  }

  lemma FirstMaxKey(keys: seq<string>, i: nat)
    requires i < |keys| && Candidates(keys)[i].Some?
    requires IsFirstMax(Candidates(keys), |keys|, i)
    ensures IsStable(keys[i])
    ensures forall k :: k in keys && IsStable(k) ==>
              LessOrEqual(Version(k), Version(keys[i]))
    ensures forall j :: 0 <= j < i && IsStable(keys[j]) ==>
              Less(Version(keys[j]), Version(keys[i]))
  {
    var cands := Candidates(keys);
    assert cands[i] == Candidate(keys[i]);
    forall k | k in keys && IsStable(k)
      ensures LessOrEqual(Version(k), Version(keys[i]))
    {
      var j :| 0 <= j < |keys| && keys[j] == k;
      assert cands[j] == Candidate(k);
    }
    forall j | 0 <= j < i && IsStable(keys[j])
      ensures Less(Version(keys[j]), Version(keys[i]))
    {
      assert cands[j] == Candidate(keys[j]);
    }
  }

  function JsonUrl(env: Environ): string {
    EnvGet(env, JsonUrlVariable, DefaultJsonUrl)
  }

  /** latest_stable_version: fetch the index, read its release keys, select. */
  function LatestStableVersion(env: Environ, get: Getter, releases: ReleaseKeys): (r: Result<string, Error>)
    ensures get(JsonUrl(env)).None? ==> r == Failure(Expected(DownloadFailure(JsonUrl(env))))
    ensures get(JsonUrl(env)).Some? && releases(get(JsonUrl(env)).value).None? ==> r == Failure(BadMetadata)
    ensures get(JsonUrl(env)).Some? && releases(get(JsonUrl(env)).value).Some? ==>
              r == SelectLatest(releases(get(JsonUrl(env)).value).value)
  {
    match HttpsGet(get, JsonUrl(env))
    case Failure(e) => Failure(e)
    case Success(doc) =>
      match releases(doc)
      case None => Failure(BadMetadata)
      case Some(keys) => SelectLatest(keys)
  }

  /** Keys with letters, such as `1.0rc1` or `0.1.dev0`, are never selected. */
  lemma PrereleaseNeverSelected(keys: seq<string>, key: string, i: nat)
    requires i < |key| && !IsReleaseChar(key[i])
    ensures SelectLatest(keys) != Success(key)
  {
  }

  /** With no stable key the selection raises ValueError, which is not an
      ExpectedError. */
  lemma NoStableKeyIsNotExpected(keys: seq<string>)
    requires forall k :: k in keys ==> !IsStable(k)
    ensures SelectLatest(keys).Failure? && !SelectLatest(keys).error.Expected?
  {
  }

  /** Every list of integers is the LooseVersion of some key that passes
      the filter, so the selection is over the whole version order. */
  lemma EveryVersionHasAKey(v: seq<nat>)
    ensures IsStable(Render(v)) && Version(Render(v)) == v
  {
    ComponentsOfRender(v);
  }

  // ---------------------------------------------------------------------
  // `template % tag`

  // The messages of the TypeError or ValueError Python raises.
  const UnusedArgumentMessage := "not all arguments converted during string formatting"
  const IncompleteFormatMessage := "incomplete format"
  const ExtraPlaceholderMessage := "not enough arguments for format string"
  const UnsupportedConversionMessage := "unsupported format character"

  /**
    Python's `template % arg` with one string argument, for templates made of
    literal text, `%%` and `%s`: `%%` gives `%`, the one `%s` gives arg.
    used records whether a `%s` has already taken the argument.
  */
  function Interpolate(template: string, arg: string, used: bool): (r: Result<string, Error>)
    ensures r.Failure? ==> r.error.BadTemplate?
    decreases |template|
  {
    if template == [] then
      if used then Success("") else Failure(BadTemplate(UnusedArgumentMessage))
    else if template[0] != '%' then
      Prepend([template[0]], Interpolate(template[1..], arg, used))
    else if |template| == 1 then
      Failure(BadTemplate(IncompleteFormatMessage))
    else if template[1] == '%' then
      Prepend("%", Interpolate(template[2..], arg, used))
    else if template[1] == 's' then
      if used then Failure(BadTemplate(ExtraPlaceholderMessage))
      else Prepend(arg, Interpolate(template[2..], arg, true))
    else
      Failure(BadTemplate(UnsupportedConversionMessage))
  }

  function Prepend(s: string, r: Result<string, Error>): (p: Result<string, Error>)
    ensures p.Failure? <==> r.Failure?
    ensures r.Failure? ==> p.error == r.error
  {
    match r
    case Success(t) => Success(s + t)
    case Failure(e) => Failure(e)
  }

  function Format(template: string, arg: string): (r: Result<string, Error>)
    ensures r.Failure? ==> r.error.BadTemplate?
  {
    Interpolate(template, arg, false)
  }

  predicate NoPercent(s: string) {
    '%' !in s
  }

  lemma PrependPrepend(a: string, b: string, r: Result<string, Error>)
    ensures Prepend(a, Prepend(b, r)) == Prepend(a + b, r)
  {
    if r.Success? {
      assert a + (b + r.value) == (a + b) + r.value;
    }
  }

  lemma {:induction false} InterpolateLiteral(text: string, rest: string, arg: string, used: bool)
    requires NoPercent(text)
    ensures Interpolate(text + rest, arg, used) == Prepend(text, Interpolate(rest, arg, used))
    decreases |text|
  {
    var tail := Interpolate(rest, arg, used);
    if text == [] {
      assert text + rest == rest;
      if tail.Success? {
        assert text + tail.value == tail.value;
      }
    } else {
      var s := text + rest;
      Seqs.ConsConcat(text, rest);
      Seqs.ConsSplit(text);
      assert s[0] != '%';
      assert Interpolate(s, arg, used) == Prepend([text[0]], Interpolate(text[1..] + rest, arg, used));
      InterpolateLiteral(text[1..], rest, arg, used);
      PrependPrepend([text[0]], text[1..], tail);
    }
  }

  /** A `%s` takes the argument, unless an earlier one already did. */
  lemma PlaceholderStep(rest: string, arg: string, used: bool)
    ensures Interpolate("%s" + rest, arg, used) ==
            if used then Failure(BadTemplate(ExtraPlaceholderMessage))
            else Prepend(arg, Interpolate(rest, arg, true))
  {
    var s := "%s" + rest;
    assert s[0] == '%' && s[1] == 's' && s[2..] == rest;
  }

  /** A template with one `%s` and no other `%` puts the argument in its place. */
  lemma FormatOnePlaceholder(before: string, after: string, arg: string)
    requires NoPercent(before) && NoPercent(after)
    ensures Format(before + "%s" + after, arg) == Success(before + arg + after)
  {
    Seqs.Assoc(before, "%s", after);
    InterpolateLiteral(before, "%s" + after, arg, false);
    PlaceholderStep(after, arg, false);
    InterpolateLiteral(after, "", arg, true);
    Seqs.AppendEmpty(after);
    Seqs.Assoc(before, arg, after);
  }

  /** A template with no `%` at all is an error: the argument is left over. */
  lemma FormatWithoutPlaceholder(template: string, arg: string)
    requires NoPercent(template)
    ensures Format(template, arg) == Failure(BadTemplate(UnusedArgumentMessage))
  {
    InterpolateLiteral(template, "", arg, false);
    assert template + "" == template;
  }

  /** A template with two `%s` is an error: there is only one argument. */
  lemma FormatTwoPlaceholders(before: string, middle: string, after: string, arg: string)
    requires NoPercent(before) && NoPercent(middle)
    ensures Format(before + "%s" + middle + "%s" + after, arg) ==
            Failure(BadTemplate(ExtraPlaceholderMessage))
  {
    var tail := middle + ("%s" + after);
    Seqs.Assoc(before + "%s" + middle, "%s", after);
    Seqs.Assoc(before + "%s", middle, "%s" + after);
    Seqs.Assoc(before, "%s", tail);
    InterpolateLiteral(before, "%s" + tail, arg, false);
    PlaceholderStep(tail, arg, false);
    InterpolateLiteral(middle, "%s" + after, arg, true);
    PlaceholderStep(after, arg, true);
  }

  // ---------------------------------------------------------------------
  // verified_new_le_auto

  /** The observable steps of verified_new_le_auto, in order. */
  datatype Event =
    | Download(url: string)
    | Write(filename: string, contents: string)
    | CheckSignature

  datatype Run = Run(events: seq<Event>, outcome: Result<(), Error>)

  /** The URLs requested during a run, in order. */
  function Requests(events: seq<Event>): (urls: seq<string>)
    ensures |urls| <= |events|
  {
    if events == [] then []
    else Requests(events[..|events| - 1]) +
         (if events[|events| - 1].Download? then [events[|events| - 1].url] else [])
  }

  /** The directory URL both files are fetched from, `LE_AUTO_DIR_TEMPLATE % tag`. */
  function ScriptDir(env: Environ, tag: string): (r: Result<string, Error>)
    ensures r.Failure? ==> r.error.BadTemplate?
  {
    Format(EnvGet(env, DirTemplateVariable, DefaultDirTemplate), tag)
  }

  /**
    verified_new_le_auto: expand the directory template with the tag, then
    download and verify from that directory. A template `%` cannot expand
    fails before anything is fetched.
  */
  function VerifiedNewLeAuto(env: Environ, get: Getter, verifies: SignatureCheck,
                             publicKey: string, tag: string): (r: Run)
    ensures ScriptDir(env, tag).Failure? ==> r == Run([], Failure(ScriptDir(env, tag).error))
    ensures ScriptDir(env, tag).Success? ==>
              r == DownloadAndVerify(ScriptDir(env, tag).value, get, verifies, publicKey)
    ensures ScriptDir(env, tag).Success? && r.outcome.Failure? ==> r.outcome.error.Expected?
  {
    match ScriptDir(env, tag)
    case Failure(e) => Run([], Failure(e))
    case Success(dir) => DownloadAndVerify(dir, get, verifies, publicKey)
  }

  /**
    The rest of verified_new_le_auto, from the directory URL `dir`: fetch the
    script, write it, fetch its signature, write it, write the public key,
    then check the signature; an unverified signature raises ExpectedError.
  */
  function DownloadAndVerify(dir: string, get: Getter, verifies: SignatureCheck, publicKey: string): (r: Run)
    ensures r.outcome.Failure? ==> r.outcome.error.Expected?
  {
    var scriptUrl, sigUrl := dir + ScriptName, dir + SignatureName;
    match HttpsGet(get, scriptUrl)
    case Failure(e) => Run([Download(scriptUrl)], Failure(e))
    case Success(script) =>
      var wroteScript := [Download(scriptUrl), Write(ScriptName, script)];
      match HttpsGet(get, sigUrl)
      case Failure(e) => Run(wroteScript + [Download(sigUrl)], Failure(e))
      case Success(sig) =>
        var events := wroteScript + [Download(sigUrl), Write(SignatureName, sig),
                                     Write(PublicKeyName, publicKey), CheckSignature];
        if verifies(publicKey, sig, script) then Run(events, Success(()))
        else Run(events, Failure(Expected(SignatureFailure)))
  }

  lemma RequestsAppend(events: seq<Event>, e: Event)
    ensures Requests(events + [e]) == Requests(events) + (if e.Download? then [e.url] else [])
  {
    assert (events + [e])[..|events|] == events;
  }

  /** Requests of a run that stops at the first download. */
  lemma RequestsOfOne(a: string)
    ensures Requests([Download(a)]) == [a]
  {
    RequestsAppend([], Download(a));
    assert [] + [Download(a)] == [Download(a)];
  }

  /** Requests of a run that stops at the second download. */
  lemma RequestsOfThree(a: string, b: string, w: Event)
    requires !w.Download?
    ensures Requests([Download(a), w, Download(b)]) == [a, b]
  {
    RequestsOfOne(a);
    RequestsAppend([Download(a)], w);
    assert [Download(a)] + [w] == [Download(a), w];
    RequestsAppend([Download(a), w], Download(b));
    assert [Download(a), w] + [Download(b)] == [Download(a), w, Download(b)];
  }

  /** Requests of a run that gets through both downloads. */
  lemma RequestsOfSix(a: string, b: string, w1: Event, w2: Event, w3: Event, w4: Event)
    requires !w1.Download? && !w2.Download? && !w3.Download? && !w4.Download?
    ensures Requests([Download(a), w1, Download(b), w2, w3, w4]) == [a, b]
  {
    var e3 := [Download(a), w1, Download(b)];
    RequestsOfThree(a, b, w1);
    RequestsAppend(e3, w2);
    RequestsAppend(e3 + [w2], w3);
    RequestsAppend(e3 + [w2] + [w3], w4);
    assert e3 + [w2] + [w3] + [w4] == [Download(a), w1, Download(b), w2, w3, w4];
  }

  /** The script download failed: one request, nothing written. */
  lemma ScriptFetchFailedRun(dir: string, get: Getter, verifies: SignatureCheck, publicKey: string)
    requires get(dir + ScriptName).None?
    ensures var script := dir + ScriptName;
            var r := DownloadAndVerify(dir, get, verifies, publicKey);
            r.events == [Download(script)] && Requests(r.events) == [script]
  {
    RequestsOfOne(dir + ScriptName);
  }

  /** The signature download failed: two requests, only the script written. */
  lemma SignatureFetchFailedRun(dir: string, get: Getter, verifies: SignatureCheck, publicKey: string)
    requires get(dir + ScriptName).Some? && get(dir + SignatureName).None?
    ensures var script, sig := dir + ScriptName, dir + SignatureName;
            var r := DownloadAndVerify(dir, get, verifies, publicKey);
            r.events == [Download(script), Write(ScriptName, get(script).value), Download(sig)] &&
            Requests(r.events) == [script, sig]
  {
    var script, sig := dir + ScriptName, dir + SignatureName;
    var w := Write(ScriptName, get(script).value);
    RequestsOfThree(script, sig, w);
    assert [Download(script), w] + [Download(sig)] == [Download(script), w, Download(sig)];
  }

  /** Both downloads succeeded: the full run, ending with the signature check. */
  lemma BothFetchedRun(dir: string, get: Getter, verifies: SignatureCheck, publicKey: string)
    requires get(dir + ScriptName).Some? && get(dir + SignatureName).Some?
    ensures var script, sig := dir + ScriptName, dir + SignatureName;
            var r := DownloadAndVerify(dir, get, verifies, publicKey);
            && r.events == [Download(script), Write(ScriptName, get(script).value), Download(sig),
                            Write(SignatureName, get(sig).value), Write(PublicKeyName, publicKey),
                            CheckSignature]
            && Requests(r.events) == [script, sig]
            && (r.outcome.Success? <==> verifies(publicKey, get(sig).value, get(script).value))
  {
    var script, sig := dir + ScriptName, dir + SignatureName;
    var w1, w2 := Write(ScriptName, get(script).value), Write(SignatureName, get(sig).value);
    var w3 := Write(PublicKeyName, publicKey);
    RequestsOfSix(script, sig, w1, w2, w3, CheckSignature);
    assert [Download(script), w1] + [Download(sig), w2, w3, CheckSignature] ==
           [Download(script), w1, Download(sig), w2, w3, CheckSignature];
  }

  /** The run's events, whichever download fails. */
  lemma RunShapes(dir: string, get: Getter, verifies: SignatureCheck, publicKey: string)
    ensures var script, sig := dir + ScriptName, dir + SignatureName;
            var r := DownloadAndVerify(dir, get, verifies, publicKey);
            && Requests(r.events) <= [script, sig]
            && (CheckSignature in r.events ==>
                  get(script).Some? && get(sig).Some? &&
                  Requests(r.events) == [script, sig] && r.events[|r.events| - 1] == CheckSignature)
  {
    var script, sig := dir + ScriptName, dir + SignatureName;
    if get(script).None? {
      ScriptFetchFailedRun(dir, get, verifies, publicKey);
    } else if get(sig).None? {
      SignatureFetchFailedRun(dir, get, verifies, publicKey);
    } else {
      BothFetchedRun(dir, get, verifies, publicKey);
    }
  }

  /** The script is requested first, then its signature, both from the tag's
      directory, and nothing else is requested. */
  lemma DownloadOrder(dir: string, get: Getter, verifies: SignatureCheck, publicKey: string)
    ensures Requests(DownloadAndVerify(dir, get, verifies, publicKey).events) <=
              [dir + ScriptName, dir + SignatureName]
  {
    RunShapes(dir, get, verifies, publicKey);
  }

  /** verified_new_le_auto requests at most `template % tag` followed by
      `letsencrypt-auto`, then the same directory followed by
      `letsencrypt-auto.sig`, in that order. */
  lemma TemplateUrlsInOrder(env: Environ, get: Getter, verifies: SignatureCheck,
                            publicKey: string, tag: string)
    requires ScriptDir(env, tag).Success?
    ensures var d := ScriptDir(env, tag).value;
            Requests(VerifiedNewLeAuto(env, get, verifies, publicKey, tag).events) <=
              [d + ScriptName, d + SignatureName]
  {
    DownloadOrder(ScriptDir(env, tag).value, get, verifies, publicKey);
  }

  /** The signature is checked only once both files have been fetched, and it
      is the last step. */
  lemma SignatureCheckedAfterBothFetches(dir: string, get: Getter, verifies: SignatureCheck, publicKey: string)
    ensures var r := DownloadAndVerify(dir, get, verifies, publicKey);
            CheckSignature in r.events ==>
              Requests(r.events) == [dir + ScriptName, dir + SignatureName] &&
              r.events[|r.events| - 1] == CheckSignature
  {
    RunShapes(dir, get, verifies, publicKey);
  }

  /** A run succeeds exactly when both downloads succeed and the signature
      verifies over the downloaded script; the files written are the ones
      downloaded. */
  lemma SucceedsOnlyIfVerified(dir: string, get: Getter, verifies: SignatureCheck, publicKey: string)
    ensures var script, sig := dir + ScriptName, dir + SignatureName;
            var r := DownloadAndVerify(dir, get, verifies, publicKey);
            && (r.outcome.Success? <==>
                  get(script).Some? && get(sig).Some? && verifies(publicKey, get(sig).value, get(script).value))
            && (r.outcome.Success? ==>
                  Write(ScriptName, get(script).value) in r.events &&
                  Write(SignatureName, get(sig).value) in r.events)
  {
    if get(dir + ScriptName).Some? && get(dir + SignatureName).Some? {
      BothFetchedRun(dir, get, verifies, publicKey);
    }
  }

  /** A signature that does not verify is reported as an ExpectedError. */
  lemma BadSignatureIsExpected(dir: string, get: Getter, verifies: SignatureCheck, publicKey: string)
    requires get(dir + ScriptName).Some? && get(dir + SignatureName).Some?
    requires !verifies(publicKey, get(dir + SignatureName).value, get(dir + ScriptName).value)
    ensures DownloadAndVerify(dir, get, verifies, publicKey).outcome == Failure(Expected(SignatureFailure))
  {
  }

  /** With no override, the script comes from the tag's directory on GitHub. */
  lemma DefaultScriptUrls(env: Environ, tag: string)
    requires DirTemplateVariable !in env
    ensures ScriptDir(env, tag) ==
            Success(RawGitHub + RepoPath + tag + "/letsencrypt-auto/")
  {
    DefaultTemplateHasNoPercent();
    FormatOnePlaceholder(RawGitHub + RepoPath, "/letsencrypt-auto/", tag);
  }

  lemma DefaultTemplateHasNoPercent()
    ensures NoPercent(RawGitHub) && NoPercent(RepoPath) && NoPercent("/letsencrypt-auto/")
  {
    forall i | 0 <= i < |RawGitHub|
      ensures RawGitHub[i] != '%'
    {
    }
  }

  // ---------------------------------------------------------------------
  // main

  /** How the process ends: main returned an exit code after printing some
      lines, or an exception other than ExpectedError escaped it. */
  datatype Exit = Returned(code: int, output: seq<string>) | Raised(error: Error)

  // The two commands main() recognises in argv[1].
  const LatestVersionFlag := "--latest-version"
  const ScriptFlag := "--le-auto-script"

  /** main(): dispatch on argv[1]; only an ExpectedError becomes exit code 1. */
  function Main(argv: seq<string>, env: Environ, get: Getter, releases: ReleaseKeys,
                verifies: SignatureCheck, publicKey: string): (r: Exit)
    ensures |argv| < 2 ==> r == Raised(MissingArgument)
    ensures r.Raised? ==> !r.error.Expected?
    ensures r.Returned? ==> r.code == 0 || r.code == 1
    ensures |argv| >= 2 && argv[1] != LatestVersionFlag && argv[1] != ScriptFlag ==>
              r == Returned(0, [])
    ensures |argv| >= 2 && argv[1] == LatestVersionFlag ==>
              var v := LatestStableVersion(env, get, releases);
              && (r.Returned? && r.code == 1 <==> v.Failure? && v.error.Expected?)
              && (r.Returned? && r.code == 0 <==> v.Success?)
              && (v.Success? ==> r == Returned(0, [v.value]))
    ensures |argv| == 2 && argv[1] == ScriptFlag ==> r == Raised(MissingArgument)
    ensures |argv| >= 3 && argv[1] == ScriptFlag ==>
              var o := VerifiedNewLeAuto(env, get, verifies, publicKey, argv[2]).outcome;
              && (r.Returned? && r.code == 1 <==> o.Failure? && o.error.Expected?)
              && (r.Returned? && r.code == 0 <==> o.Success?)
  {
    if |argv| < 2 then Raised(MissingArgument)
    else if argv[1] == LatestVersionFlag then
      match LatestStableVersion(env, get, releases)
      case Success(v) => Returned(0, [v])
      case Failure(e) => Report(e)
    else if argv[1] == ScriptFlag then
      if |argv| < 3 then Raised(MissingArgument)
      else
        match VerifiedNewLeAuto(env, get, verifies, publicKey, argv[2]).outcome
        case Success(_) => Returned(0, [])
        case Failure(e) => Report(e)
    else Returned(0, [])
  }

  /** The `except ExpectedError` clause: print the message and return 1;
      any other exception propagates. */
  function Report(e: Error): (r: Exit)
    ensures e.Expected? <==> r.Returned?
    ensures e.Expected? ==> r == Returned(1, [e.message])
    ensures !e.Expected? ==> r == Raised(e)
  {
    if e.Expected? then Returned(1, [e.message]) else Raised(e)
  }

  /** With an index that has no stable release, main does not return 1:
      the ValueError escapes main. */
  lemma NoStableReleaseEscapesMain(argv: seq<string>, env: Environ, get: Getter, releases: ReleaseKeys,
                                   verifies: SignatureCheck, publicKey: string)
    requires |argv| >= 2 && argv[1] == LatestVersionFlag
    requires get(JsonUrl(env)).Some? && releases(get(JsonUrl(env)).value).Some?
    requires forall k :: k in releases(get(JsonUrl(env)).value).value ==> !IsStable(k)
    ensures Main(argv, env, get, releases, verifies, publicKey) == Raised(NoStableRelease)
  {
  }
}
