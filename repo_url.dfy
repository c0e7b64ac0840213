/** The owner and repository name the dashboard reads off a GitHub URL before it
    queries the API: the URL is stripped of slashes at both ends and split at
    `/`, and the last two pieces are the owner and the repository. A URL with no
    inner slash has only one piece; indexing the second-to-last piece then raises,
    the handler catches it and the lookup yields nothing. */
module RepoUrl {
  import opened Common
  import opened Strings

  /** The pieces of the URL between slashes, after stripping slashes at both ends. */
  function UrlParts(url: string): seq<string>
  {
    Split(Strip(url, '/'), '/')
  }

  /** `parts[-2], parts[-1]`, or nothing where that indexing raises. */
  function LastTwo(parts: seq<string>): (r: Option<(string, string)>)
    ensures r.None? <==> |parts| < 2
    ensures r.Some? ==> r.value.0 == parts[|parts| - 2] && r.value.1 == parts[|parts| - 1]
  {
    if |parts| < 2 then None else Some((parts[|parts| - 2], parts[|parts| - 1]))
  }

  /** `parts = repo_url.strip('/').split('/'); owner, repo = parts[-2], parts[-1]`,
      with the `IndexError` of a one-piece URL turned into `None`. */
  function OwnerAndRepo(url: string): (r: Option<(string, string)>)
    ensures r.None? <==> '/' !in Strip(url, '/')
    ensures r.Some? ==> '/' !in r.value.0 && '/' !in r.value.1
  {
    LastTwo(UrlParts(url))
  }

  /** A trailing slash does not change the owner and repository read off a URL. */
  lemma TrailingSlashIgnored(url: string)
    ensures OwnerAndRepo(url + "/") == OwnerAndRepo(url)
  {
    StripTrailing(url, '/');
    assert UrlParts(url + "/") == UrlParts(url);
  }

  /** Nor does a leading slash. */
  lemma LeadingSlashIgnored(url: string)
    ensures OwnerAndRepo("/" + url) == OwnerAndRepo(url)
  {
    StripLeading(url, '/');
    assert UrlParts("/" + url) == UrlParts(url);
  }

  /** The owner and repository are the end of the stripped URL, joined by a slash,
      and the owner is a whole segment: the URL starts there or a slash precedes it. */
  lemma OwnerAndRepoIsSuffix(url: string)
    requires OwnerAndRepo(url).Some?
    ensures var (owner, repo) := OwnerAndRepo(url).value;
      var t := Strip(url, '/');
      var tail := owner + "/" + repo;
      |tail| <= |t| && t[|t| - |tail|..] == tail
      && (|tail| == |t| || t[|t| - |tail| - 1] == '/')
  {
    var t := Strip(url, '/');
    var parts := UrlParts(url);
    var (owner, repo) := OwnerAndRepo(url).value;
    var last := [owner, repo];
    var init := parts[..|parts| - 2];
    assert parts == init + last;
    JoinSplit(t, '/');
    assert Join(last, "/") == owner + "/" + repo by {
      assert last[1..] == [repo];
    }
    if init == [] {
      assert parts == last;
    } else {
      JoinAppend(init, last, "/");
      assert t == (Join(init, "/") + "/") + (owner + "/" + repo);
    }
  }

  /** A URL of the form `<site>/<owner>/<repo>`, where the site does not start with
      a slash and neither the owner nor a non-empty repository name holds one,
      yields exactly that owner and repository. */
  lemma OwnerAndRepoOfPath(site: string, owner: string, repo: string)
    requires site != [] && site[0] != '/'
    requires '/' !in owner && '/' !in repo && repo != []
    ensures OwnerAndRepo(site + "/" + owner + "/" + repo) == Some((owner, repo))
  {
    var url := site + "/" + owner + "/" + repo;
    assert url[0] == site[0];
    assert url[|url| - 1] == repo[|repo| - 1];
    StripUnpadded(url, '/');
    SplitAppend(site + "/" + owner, repo, '/');
    SplitAppend(site, owner, '/');
    SplitWithoutSeparator(owner, '/');
    SplitWithoutSeparator(repo, '/');
    var front := Split(site, '/');
    assert UrlParts(url) == front + [owner] + [repo];
  }
}
