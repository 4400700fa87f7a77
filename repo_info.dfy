/** Owner and repository name from a repository URL: extract_repo_info in generator/services.py. */
module RepoInfo {
  import opened Wrappers
  import opened Text
  import opened Exceptions
  import Forms

  const INVALID_URL := "Invalid GitHub URL"

  /** url.strip('/').split('/'): fewer than two parts is a ValueError; otherwise the
      last two parts. The result is exactly the last two '/'-separated fields of the
      stripped URL, so neither holds a '/'. */
  function ExtractRepoInfo(url: string): (r: Result<(string, string), Error>)
    ensures r.Failure? <==> '/' !in Strip(url, {'/'})
    ensures r.Failure? ==> r.error == ValueError(INVALID_URL)
    ensures r.Success? ==> LastTwoFields(Strip(url, {'/'}), '/', r.value.0, r.value.1)
  {
    var stripped := Strip(url, {'/'});
    var parts := Split(stripped, '/');
    SplitSingle(stripped, '/');
    if |parts| < 2 then Failure(ValueError(INVALID_URL))
    else
      SplitLastTwo(stripped, '/');
      Success((parts[|parts| - 2], parts[|parts| - 1]))
  }

  /** The two names are the only pair the contract allows. */
  lemma ExtractRepoInfoWhenFields(url: string, owner: string, repo: string)
    requires LastTwoFields(Strip(url, {'/'}), '/', owner, repo)
    ensures ExtractRepoInfo(url) == Success((owner, repo))
  {
    var s := Strip(url, {'/'});
    LastTwoFieldsSeparator(s, '/', owner, repo);
    var r := ExtractRepoInfo(url);
    LastTwoFieldsUnique(s, '/', r.value.0, r.value.1, owner, repo);
  }

  /** In prefix + owner + "/" + repo, with prefix ending in '/', owner and repo are the last two fields. */
  lemma CoreFields(prefix: string, owner: string, repo: string)
    requires |prefix| > 0 && prefix[|prefix| - 1] == '/'
    requires Forms.Segment(owner) && Forms.Segment(repo)
    ensures LastTwoFields(prefix + (owner + ("/" + repo)), '/', owner, repo)
  {
    var core := prefix + (owner + ("/" + repo));
    assert core[|core| - |repo|..] == repo;
    var front := core[..|core| - |repo| - 1];
    assert front == prefix + owner;
    assert front[|front| - |owner|..] == owner;
    assert front[|front| - |owner| - 1] == '/';
  }

  lemma NewlineUrlExtracts(core: string, owner: string, repo: string)
    requires LastTwoFields(core, '/', owner, repo)
    requires |core| > 0 && core[0] != '/'
    ensures ExtractRepoInfo(core + ("/" + "\n")) == Success((repo, "\n"))
  {
    var url := core + ("/" + "\n");
    assert url[0] == core[0];
    assert url[|url| - 1] == '\n';
    StripUnique(url, "", url, "", {'/'});
    LastFieldBehind(core, '/', "\n", "\n");
    assert url[..|url| - 2] == core;
    ExtractRepoInfoWhenFields(url, repo, "\n");
  }

  lemma PlainUrlExtracts(core: string, tail: string, owner: string, repo: string)
    requires LastTwoFields(core, '/', owner, repo)
    requires |core| > 0 && core[0] != '/' && core[|core| - 1] != '/'
    requires AllIn(tail, {'/'})
    ensures ExtractRepoInfo(core + tail) == Success((owner, repo))
  {
    StripUnique(core + tail, "", core, tail, {'/'});
    ExtractRepoInfoWhenFields(core + tail, owner, repo);
  }

  /** Every URL the form accepts parses: without the final newline that `$` admits, to
      its owner and repository segments; with it, to the repository segment and "\n". */
  lemma AcceptedUrlExtracts(url: string)
    requires Forms.IsRepoUrl(url)
    ensures var p := Forms.ParseRepoUrl(url).value;
      ExtractRepoInfo(url) == Success(if p.finalNewline then (p.repo, "\n") else (p.owner, p.repo))
  {
    var p := Forms.ParseRepoUrl(url).value;
    Forms.ParseSound(url);
    var prefix := if p.secure then Forms.HTTPS_PREFIX else Forms.HTTP_PREFIX;
    var core := prefix + (p.owner + ("/" + p.repo));
    CoreFields(prefix, p.owner, p.repo);
    var t := Forms.Tail(p);
    calc {
      url;
      prefix + (p.owner + ("/" + (p.repo + t)));
      { ConcatAssoc("/", p.repo, t); }
      prefix + (p.owner + (("/" + p.repo) + t));
      { ConcatAssoc(p.owner, "/" + p.repo, t); }
      prefix + ((p.owner + ("/" + p.repo)) + t);
      { ConcatAssoc(prefix, p.owner + ("/" + p.repo), t); }
      core + t;
    }
    assert core[0] == 'h';
    assert core[|core| - 1] == p.repo[|p.repo| - 1];
    if p.finalNewline {
      assert Forms.Tail(p) == "/" + "\n";
      NewlineUrlExtracts(core, p.owner, p.repo);
    } else {
      PlainUrlExtracts(core, Forms.Tail(p), p.owner, p.repo);
    }
  }

  /** The documented example. */
  lemma ExampleUrl()
    ensures ExtractRepoInfo("https://github.com/o/r") == Success(("o", "r"))
  {
    var url := "https://github.com/o/r";
    CoreFields(Forms.HTTPS_PREFIX, "o", "r");
    assert Forms.HTTPS_PREFIX + ("o" + ("/" + "r")) == url;
    assert url + "" == url;
    PlainUrlExtracts(url, "", "o", "r");
  }

  /** A run of slashes strips to "", which splits to a single part. */
  lemma ExampleSlashes()
    ensures ExtractRepoInfo("///").Failure?
  {
    assert "///" == "///" + "" + "";
    StripUnique("///", "///", "", "", {'/'});
  }
}
