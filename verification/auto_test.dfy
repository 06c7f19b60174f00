/**
  The fixture logic of letsencrypt_auto/tests/auto_test.py: choosing the
  server's port, the URL the tests use to reach it, and the environment that
  points letsencrypt-auto (and through it fetch.py) at that server.

  Whether binding a port succeeds depends on the operating system; it is the
  parameter `binds`.
*/
module AutoTest {
  import opened Wrappers
  import opened Decimal
  import Fetch
  import PathTranslation
  import Seqs

  /** The ports server_and_port tries: 4443 up to, not including, 4543. */
  const FirstPort := 4443
  const PortLimit := 4543
  const NoPortMessage := "Couldn't find an unused socket for the testing HTTPS server."

  datatype TestError = RuntimeError(message: string)

  /** server_and_port: the first port in the range that binds; RuntimeError
      when none does. */
  method ServerAndPort(binds: int -> bool) returns (r: Result<int, TestError>)
    ensures r.Success? ==> FirstPort <= r.value < PortLimit && binds(r.value)
    ensures r.Success? ==> forall q :: FirstPort <= q < r.value ==> !binds(q)
    ensures r.Failure? <==> forall q :: FirstPort <= q < PortLimit ==> !binds(q)
    ensures r.Failure? ==> r.error == RuntimeError(NoPortMessage)
  {
    var worked := false;
    var port := FirstPort;
    while port < PortLimit
      invariant FirstPort <= port <= PortLimit
      invariant !worked
      invariant forall q :: FirstPort <= q < port ==> !binds(q)
    {
      if binds(port) {
        worked := true;
        break;
      }
      port := port + 1;
    }
    if !worked {
      return Failure(RuntimeError(NoPortMessage));
    }
    return Success(port);
  }

  const LocalhostPrefix := "https://localhost:"

  /** The class-level state ServerTestCase.setup_class records. */
  class ServerTestCase {
    var port: nat

    /** setup_class: find the port (starting the server thread is not modelled). */
    method SetupClass(binds: int -> bool) returns (r: Result<(), TestError>)
      modifies this
      ensures r.Success? ==> FirstPort <= port < PortLimit && binds(port)
      ensures r.Success? ==> forall q :: FirstPort <= q < port ==> !binds(q)
      ensures r.Failure? ==> port == old(port) && forall q :: FirstPort <= q < PortLimit ==> !binds(q)
    {
      var found := ServerAndPort(binds);
      match found
      case Success(p) =>
        port := p;
        r := Success(());
      case Failure(e) =>
        r := Failure(e);
    }

    /** server_url: `https://localhost:<port>/`, from which the port can be
        read back. */
    function ServerUrl(): (url: string)
      reads this
      ensures |url| > |LocalhostPrefix| + 1
      ensures url[..|LocalhostPrefix|] == LocalhostPrefix && url[|url| - 1] == '/'
      ensures AllDigits(url[|LocalhostPrefix|..|url| - 1])
      ensures Value(url[|LocalhostPrefix|..|url| - 1]) == port
      ensures url == LocalhostPrefix + Show(port) + "/"
    {
      var url := LocalhostPrefix + Show(port) + "/";
      assert url[|LocalhostPrefix|..|url| - 1] == Show(port);
      ValueOfShow(port);
      url
    }
  }

  /** Two test cases reach the same URL only when they use the same port. */
  lemma ServerUrlDeterminesPort(a: ServerTestCase, b: ServerTestCase)
    requires a.ServerUrl() == b.ServerUrl()
    ensures a.port == b.port
  {
    var u := a.ServerUrl();
    assert u[|LocalhostPrefix|..|u| - 1] == b.ServerUrl()[|LocalhostPrefix|..|u| - 1];
  }

  const DataHomeVariable := "XDG_DATA_HOME"

  /** The environment run_le_auto passes to letsencrypt-auto. */
  function RunLeAutoEnv(venvDir: string, baseUrl: string): (env: Fetch.Environ)
    ensures env.Keys == {DataHomeVariable, Fetch.JsonUrlVariable, Fetch.DirTemplateVariable}
    ensures env[DataHomeVariable] == venvDir
    ensures env[Fetch.JsonUrlVariable] == baseUrl + "letsencrypt/json"
    ensures env[Fetch.DirTemplateVariable] == baseUrl + "%s/"
  {
    map[DataHomeVariable := venvDir,
        Fetch.JsonUrlVariable := baseUrl + "letsencrypt/json",
        Fetch.DirTemplateVariable := baseUrl + "%s/"]
  }

  /**
    Under run_le_auto's environment fetch.py reads the index from
    `<base>letsencrypt/json` and downloads both files from `<base><tag>/`,
    provided the base URL holds no `%`.
  */
  lemma EnvRedirectsFetch(venvDir: string, baseUrl: string, tag: string)
    requires '%' !in baseUrl
    ensures var env := RunLeAutoEnv(venvDir, baseUrl);
            && Fetch.JsonUrl(env) == baseUrl + "letsencrypt/json"
            && Fetch.ScriptDir(env, tag) == Success(baseUrl + tag + "/")
  {
    var env := RunLeAutoEnv(venvDir, baseUrl);
    assert Fetch.DirTemplateVariable != Fetch.JsonUrlVariable;
    assert env[Fetch.DirTemplateVariable] == baseUrl + "%s" + "/";
    Fetch.FormatOnePlaceholder(baseUrl, "/", tag);
  }

  lemma ServerUrlHasNoPercent(t: ServerTestCase)
    ensures '%' !in t.ServerUrl()
  {
    var digits := Show(t.port);
    assert t.ServerUrl() == LocalhostPrefix + digits + "/";
    assert '%' !in LocalhostPrefix;
    assert forall i :: 0 <= i < |digits| ==> IsDigit(digits[i]);
  }

  /** fetch.py, run by the test, downloads the scripts for a tag from the
      test server: `https://localhost:<port>/<tag>/`. */
  lemma FetchUsesTestServer(t: ServerTestCase, venvDir: string, tag: string)
    ensures var env := RunLeAutoEnv(venvDir, t.ServerUrl());
            Fetch.ScriptDir(env, tag) == Success(t.ServerUrl() + tag + "/")
  {
    ServerUrlHasNoPercent(t);
    EnvRedirectsFetch(venvDir, t.ServerUrl(), tag);
  }

  /** `letsencrypt-auto` is a plain name that needs no escaping. */
  lemma ScriptNameIsPlain()
    ensures var name := Fetch.ScriptName;
            PathTranslation.IsName(name) && '%' !in name && '?' !in name && '#' !in name
  {
    var name := Fetch.ScriptName;
    forall i | 0 <= i < |name|
      ensures name[i] != '/' && name[i] != '%' && name[i] != '?' && name[i] != '#'
    {
    }
  }

  /** `/<dir>/<name>` for two plain names is served from `<root>/<dir>/<name>`. */
  lemma TwoNamesServed(root: string, dir: string, name: string)
    requires PathTranslation.IsName(dir) && '%' !in dir && '?' !in dir && '#' !in dir
    requires PathTranslation.IsName(name) && '%' !in name && '?' !in name && '#' !in name
    requires root != [] && root[|root| - 1] != '/'
    ensures PathTranslation.Translated(root, "/" + dir + "/" + name) == root + "/" + dir + "/" + name
  {
    assert PathTranslation.Join([dir, name], '/') == dir + "/" + name by {
      assert [dir, name][1..] == [name];
    }
    PathTranslation.PlainPathTranslated(root, [dir, name]);
    Seqs.Assoc("/", dir, "/");
    Seqs.Assoc("/", dir + "/", name);
    Seqs.Assoc(root + "/", dir, "/");
    Seqs.Assoc(root + "/", dir + "/", name);
  }

  /** The request path fetch.py sends for the script of a plain tag is served
      from `<root>/<tag>/letsencrypt-auto`. */
  lemma ScriptServedFromRoot(root: string, tag: string)
    requires PathTranslation.IsName(tag) && '%' !in tag && '?' !in tag && '#' !in tag
    requires root != [] && root[|root| - 1] != '/'
    ensures PathTranslation.Translated(root, "/" + tag + "/" + Fetch.ScriptName) ==
            root + "/" + tag + "/" + Fetch.ScriptName
  {
    ScriptNameIsPlain();
    TwoNamesServed(root, tag, Fetch.ScriptName);
  }
}
