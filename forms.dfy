/**
 * The repository-URL check of the input form (generator/forms.py): the pattern
 * ^https?://github\.com/[^/]+/[^/]+/?$ applied with Python's re.match, written out
 * by hand. In Python, `$` also matches just before one final "\n", and `[^/]`
 * matches any character but '/', the newline included.
 */
module Forms {
  import opened Wrappers
  import opened Text

  const INVALID_URL_MESSAGE := "Please enter a valid GitHub repository URL"
  const HTTPS_PREFIX := "https://github.com/"
  const HTTP_PREFIX := "http://github.com/"

  /** One `[^/]+` of the pattern. */
  predicate Segment(s: string) {
    |s| > 0 && '/' !in s
  }

  /** A URL of the pattern, by its parts: the scheme, the two segments, the optional
      trailing '/', and the final newline that `$` lets through. */
  datatype RepoUrl = RepoUrl(secure: bool, owner: string, repo: string, trailingSlash: bool, finalNewline: bool)

  /** The parts describe a string of the pattern, in one way only: a final newline right
      after the repository segment belongs to that segment. */
  predicate WellFormed(p: RepoUrl) {
    Segment(p.owner) && Segment(p.repo) && (p.finalNewline ==> p.trailingSlash)
  }

  /** The optional '/' and newline after the repository segment. */
  function Tail(p: RepoUrl): string {
    (if p.trailingSlash then "/" else "") + (if p.finalNewline then "\n" else "")
  }

  function Render(p: RepoUrl): string {
    (if p.secure then HTTPS_PREFIX else HTTP_PREFIX) + (p.owner + ("/" + (p.repo + Tail(p))))
  }

  /** The repository segment and what may follow it: nothing, "/", or "/\n". */
  function ParseRest(secure: bool, owner: string, rest: string): Option<RepoUrl> {
    if Segment(rest) then Some(RepoUrl(secure, owner, rest, false, false))
    else if |rest| >= 2 && rest[|rest| - 1] == '/' && Segment(rest[..|rest| - 1]) then
      Some(RepoUrl(secure, owner, rest[..|rest| - 1], true, false))
    else if |rest| >= 3 && rest[|rest| - 2..] == "/\n" && Segment(rest[..|rest| - 2]) then
      Some(RepoUrl(secure, owner, rest[..|rest| - 2], true, true))
    else None
  }

  /** What follows "github.com/": the owner segment, '/', and the rest. */
  function ParsePath(secure: bool, path: string): Option<RepoUrl> {
    var i := IndexOf(path, '/');
    if i == 0 || i == |path| then None else ParseRest(secure, path[..i], path[i + 1..])
  }

  function ParseRepoUrl(url: string): Option<RepoUrl> {
    if StartsWith(url, HTTPS_PREFIX) then ParsePath(true, url[|HTTPS_PREFIX|..])
    else if StartsWith(url, HTTP_PREFIX) then ParsePath(false, url[|HTTP_PREFIX|..])
    else None
  }

  /** re.match(pattern, url) succeeds; it can only do so on the pattern's two prefixes. */
  predicate IsRepoUrl(url: string): (b: bool)
    ensures b ==> StartsWith(url, HTTPS_PREFIX) || StartsWith(url, HTTP_PREFIX)
  {
    ParseRepoUrl(url).Some?
  }

  lemma ParseRestSound(secure: bool, owner: string, rest: string)
    requires ParseRest(secure, owner, rest).Some?
    ensures var p := ParseRest(secure, owner, rest).value;
      p.secure == secure && p.owner == owner && Segment(p.repo)
      && (p.finalNewline ==> p.trailingSlash) && rest == p.repo + Tail(p)
  {
    if Segment(rest) {
      assert rest == rest + "";
    } else if |rest| >= 2 && rest[|rest| - 1] == '/' && Segment(rest[..|rest| - 1]) {
      var repo := rest[..|rest| - 1];
      assert ParseRest(secure, owner, rest) == Some(RepoUrl(secure, owner, repo, true, false));
      assert rest == repo + "/";
    } else {
      var repo := rest[..|rest| - 2];
      assert ParseRest(secure, owner, rest) == Some(RepoUrl(secure, owner, repo, true, true));
      assert rest == repo + "/\n";
    }
  }

  lemma ParseRestComplete(p: RepoUrl)
    requires WellFormed(p)
    ensures ParseRest(p.secure, p.owner, p.repo + Tail(p)) == Some(p)
  {
    var rest := p.repo + Tail(p);
    if p.trailingSlash {
      assert rest[|p.repo|] == '/';
      if p.finalNewline {
        assert rest == p.repo + "/\n";
        assert rest[|rest| - 1] == '\n';
        assert rest[|rest| - 2..] == "/\n";
        assert rest[..|rest| - 2] == p.repo;
      } else {
        assert rest == p.repo + "/";
        assert rest[..|rest| - 1] == p.repo;
      }
    } else {
      assert rest == p.repo;
    }
  }

  lemma ParsePathSound(secure: bool, path: string)
    requires ParsePath(secure, path).Some?
    ensures var p := ParsePath(secure, path).value;
      p.secure == secure && WellFormed(p) && path == p.owner + ("/" + (p.repo + Tail(p)))
  {
    var i := IndexOf(path, '/');
    var owner, rest := path[..i], path[i + 1..];
    IndexOfSlices(path, '/');
    assert ParsePath(secure, path) == ParseRest(secure, owner, rest);
    ParseRestSound(secure, owner, rest);
  }

  lemma ParsePathComplete(p: RepoUrl)
    requires WellFormed(p)
    ensures ParsePath(p.secure, p.owner + ("/" + (p.repo + Tail(p)))) == Some(p)
  {
    var rest := p.repo + Tail(p);
    var path := p.owner + ("/" + rest);
    IndexOfCons(p.owner, '/', rest);
    assert path[..|p.owner|] == p.owner && path[|p.owner| + 1..] == rest;
    ParseRestComplete(p);
  }

  /** Whatever the parser returns describes the URL it read. */
  lemma ParseSound(url: string)
    requires IsRepoUrl(url)
    ensures WellFormed(ParseRepoUrl(url).value) && Render(ParseRepoUrl(url).value) == url
  {
    var prefix := if StartsWith(url, HTTPS_PREFIX) then HTTPS_PREFIX else HTTP_PREFIX;
    var path := url[|prefix|..];
    assert url == prefix + path;
    ParsePathSound(prefix == HTTPS_PREFIX, path);
  }

  /** An http:// URL never starts with the https:// prefix: they differ at index 4. */
  lemma PlainIsNotSecure(path: string)
    ensures !StartsWith(HTTP_PREFIX + path, HTTPS_PREFIX)
  {
    var u := HTTP_PREFIX + path;
    assert u[4] == HTTP_PREFIX[4] == ':';
    assert HTTPS_PREFIX[4] == 's';
    if |HTTPS_PREFIX| <= |u| {
      assert u[..|HTTPS_PREFIX|][4] == u[4];
    }
  }

  /** Every string of the pattern is parsed back into its parts. */
  lemma ParseComplete(p: RepoUrl)
    requires WellFormed(p)
    ensures ParseRepoUrl(Render(p)) == Some(p)
  {
    var path := p.owner + ("/" + (p.repo + Tail(p)));
    var url := Render(p);
    ParsePathComplete(p);
    if p.secure {
      assert url == HTTPS_PREFIX + path;
      assert url[..|HTTPS_PREFIX|] == HTTPS_PREFIX;
      assert url[|HTTPS_PREFIX|..] == path;
      assert ParseRepoUrl(url) == ParsePath(true, path);
    } else {
      assert url == HTTP_PREFIX + path;
      PlainIsNotSecure(path);
      assert url[..|HTTP_PREFIX|] == HTTP_PREFIX;
      assert url[|HTTP_PREFIX|..] == path;
      assert ParseRepoUrl(url) == ParsePath(false, path);
    }
  }

  /** The check accepts exactly the strings of the pattern. */
  lemma IsRepoUrlMatchesPattern(url: string)
    ensures IsRepoUrl(url) <==> exists p :: WellFormed(p) && Render(p) == url
  {
    if IsRepoUrl(url) {
      ParseSound(url);
    }
    if p :| WellFormed(p) && Render(p) == url {
      ParseComplete(p);
    }
  }

  /** RepoForm.clean_repo_url: the URL unchanged when it has the pattern's shape,
      otherwise a ValidationError with the form's message. */
  function CleanRepoUrl(url: string): (r: Result<string, string>)
    ensures r.Success? <==> exists p :: WellFormed(p) && Render(p) == url
    ensures r.Success? ==> r.value == url
    ensures r.Failure? ==> r.error == INVALID_URL_MESSAGE
  {
    IsRepoUrlMatchesPattern(url);
    if IsRepoUrl(url) then Success(url) else Failure(INVALID_URL_MESSAGE)
  }

  /** An accepted URL starts with http:// or https:// followed by github.com/. */
  lemma AcceptedScheme(url: string)
    requires CleanRepoUrl(url).Success?
    ensures StartsWith(url, HTTPS_PREFIX) || StartsWith(url, HTTP_PREFIX)
  {
    IsRepoUrlMatchesPattern(url);
  }

  /** A repository URL with its optional trailing slash is accepted. */
  lemma ExampleAccepted()
    ensures CleanRepoUrl("https://github.com/o/r/") == Success("https://github.com/o/r/")
  {
    var p := RepoUrl(true, "o", "r", true, false);
    assert Render(p) == "https://github.com/o/r/";
  }

  /** A profile URL, with one path segment, is rejected. */
  lemma ExampleProfileRejected()
    ensures CleanRepoUrl("https://github.com/o").Failure?
  {
    var path := "o";
    assert "https://github.com/o"[..|HTTPS_PREFIX|] == HTTPS_PREFIX;
    assert "https://github.com/o"[|HTTPS_PREFIX|..] == path;
    assert IndexOf(path, '/') == |path|;
  }

  /** A deeper path, here a file in the repository, is rejected. */
  lemma ExampleDeepPathRejected()
    ensures CleanRepoUrl("https://github.com/o/r/x").Failure?
  {
    var url := "https://github.com/o/r/x";
    assert url[..|HTTPS_PREFIX|] == HTTPS_PREFIX;
    assert url[|HTTPS_PREFIX|..] == "o/r/x";
    assert IndexOf("o/r/x", '/') == 1;
    assert "o/r/x"[2..] == "r/x";
  }
}
