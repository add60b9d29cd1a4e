/**
 * The repository aggregation service: three per-platform normalisers that
 * turn API payload entries into one `GitRepo` record shape, and the merge of
 * their results into one list ordered by last update, newest first.
 */
module GitService {
  import opened Wrappers
  import opened JsText

  /** The platform tag: `'github' | 'gitlab' | 'gitlab-isima'`. */
  datatype Platform = GitHub | GitLab | GitLabIsima

  /** The unified repository record. Timestamps are milliseconds since the epoch. */
  datatype GitRepo = GitRepo(
    id: string,
    name: string,
    description: Option<string>,
    url: string,
    gitUrl: string,
    liveUrl: Option<string>,
    defaultBranch: string,
    lastUpdate: int,
    createdAt: int,
    platform: Platform,
    readme: Nullable<string>,
    license: Nullable<string>,
    readmeLoading: Option<bool>,
    licenseLoading: Option<bool>)

  /** The fields read from one entry of GitHub's `/users/{u}/repos` answer. */
  datatype GithubPayload = GithubPayload(
    id: nat, name: string, description: Option<string>, htmlUrl: string, cloneUrl: string,
    homepage: Option<string>, defaultBranch: string, updatedAt: int, createdAt: int)

  /** The fields read from one entry of a GitLab `/users/{u}/projects` answer. */
  datatype GitlabPayload = GitlabPayload(
    id: nat, name: string, description: Option<string>, webUrl: string, httpUrlToRepo: string,
    pagesUrl: Option<string>, defaultBranch: string, lastActivityAt: int, createdAt: int)

  /**
   * The outcome of one listing request: a non-OK status, a rejection anywhere
   * in the `try` block (fetch, `json()`, the mapping), or the entries.
   */
  datatype Response<T> = NotOk(status: int) | Threw | Ok(entries: seq<T>)

  // ---------------------------------------------------------------------------
  // Normalisers
  // ---------------------------------------------------------------------------

  /** The id prefix of each platform. */
  function Prefix(p: Platform): string {
    match p
    case GitHub => "github-"
    case GitLab => "gitlab-"
    case GitLabIsima => "gitlab-isima-"
  }

  /** The template literal `${prefix}${repo.id}`. */
  function RepoId(p: Platform, nativeId: nat): string {
    Prefix(p) + Decimal(nativeId)
  }

  /** `value || null` on a string property: kept when non-empty, otherwise null. */
  function OrNull(s: Option<string>): (r: Option<string>)
    ensures r.Some? <==> s.Some? && s.value != ""
    ensures r.Some? ==> r == s
  {
    if s.Some? && s.value != "" then s else None
  }

  /** One GitHub entry as a `GitRepo`: the live URL is the homepage when it is non-empty. */
  function FromGithub(e: GithubPayload): (r: GitRepo)
    ensures r.platform == GitHub && r.id == RepoId(GitHub, e.id)
    ensures r.liveUrl == OrNull(e.homepage) && r.lastUpdate == e.updatedAt
  {
    GitRepo(RepoId(GitHub, e.id), e.name, e.description, e.htmlUrl, e.cloneUrl,
            OrNull(e.homepage), e.defaultBranch, e.updatedAt, e.createdAt, GitHub,
            Undefined, Undefined, None, None)
  }

  /** One GitLab.com entry as a `GitRepo`: the live URL is `pages_url` when it is non-empty. */
  function FromGitlab(e: GitlabPayload): (r: GitRepo)
    ensures r.platform == GitLab && r.id == RepoId(GitLab, e.id)
    ensures r.liveUrl == OrNull(e.pagesUrl) && r.lastUpdate == e.lastActivityAt
  {
    GitRepo(RepoId(GitLab, e.id), e.name, e.description, e.webUrl, e.httpUrlToRepo,
            OrNull(e.pagesUrl), e.defaultBranch, e.lastActivityAt, e.createdAt, GitLab,
            Undefined, Undefined, None, None)
  }

  /** One GitLab ISIMA entry as a `GitRepo`: never a live URL. */
  function FromGitlabIsima(e: GitlabPayload): (r: GitRepo)
    ensures r.platform == GitLabIsima && r.id == RepoId(GitLabIsima, e.id)
    ensures r.liveUrl == None && r.lastUpdate == e.lastActivityAt
  {
    GitRepo(RepoId(GitLabIsima, e.id), e.name, e.description, e.webUrl, e.httpUrlToRepo,
            None, e.defaultBranch, e.lastActivityAt, e.createdAt, GitLabIsima,
            Undefined, Undefined, None, None)
  }

  /** `getGithubRepos`: empty on any failure, otherwise one record per entry, in order. */
  function GetGithubRepos(resp: Response<GithubPayload>): (r: seq<GitRepo>)
    ensures !resp.Ok? ==> r == []
    ensures resp.Ok? ==> |r| == |resp.entries|
                         && forall i :: 0 <= i < |r| ==> r[i] == FromGithub(resp.entries[i])
  {
    match resp
    case Ok(es) => seq(|es|, i requires 0 <= i < |es| => FromGithub(es[i]))
    case _ => []
  }

  /** `getGitlabRepos`: empty on any failure, otherwise one record per entry, in order. */
  function GetGitlabRepos(resp: Response<GitlabPayload>): (r: seq<GitRepo>)
    ensures !resp.Ok? ==> r == []
    ensures resp.Ok? ==> |r| == |resp.entries|
                         && forall i :: 0 <= i < |r| ==> r[i] == FromGitlab(resp.entries[i])
  {
    match resp
    case Ok(es) => seq(|es|, i requires 0 <= i < |es| => FromGitlab(es[i]))
    case _ => []
  }

  /** `getGitlabIsimaRepos`: empty on any failure, otherwise one record per entry, in order. */
  function GetGitlabIsimaRepos(resp: Response<GitlabPayload>): (r: seq<GitRepo>)
    ensures !resp.Ok? ==> r == []
    ensures resp.Ok? ==> |r| == |resp.entries|
                         && forall i :: 0 <= i < |r| ==> r[i] == FromGitlabIsima(resp.entries[i])
  {
    match resp
    case Ok(es) => seq(|es|, i requires 0 <= i < |es| => FromGitlabIsima(es[i]))
    case _ => []
  }

  /**
   * Composed ids determine platform and native id: ids of different platforms
   * never coincide, and on one platform distinct native ids give distinct ids.
   */
  lemma RepoIdInjective(p: Platform, a: nat, q: Platform, b: nat)
    ensures RepoId(p, a) == RepoId(q, b) <==> p == q && a == b
  {
    var s, u := RepoId(p, a), RepoId(q, b);
    if p != q {
      if p == GitHub || q == GitHub {
        // `github-` and `gitlab-` differ at position 3
        assert s[3] != u[3];
      } else {
        // after `gitlab-` comes a digit in one id and the `i` of `isima-` in the other
        assert IsDigit(Decimal(a)[0]) && IsDigit(Decimal(b)[0]);
        assert s[7] != u[7];
      }
    } else if a != b {
      assert s[|Prefix(p)|..] == Decimal(a) && u[|Prefix(p)|..] == Decimal(b);
      if Decimal(a) == Decimal(b) {
        DecimalInjective(a, b);
      }
    }
  }

  // ---------------------------------------------------------------------------
  // Stable sort by last update, newest first
  // ---------------------------------------------------------------------------

  /** Non-increasing `lastUpdate`. */
  predicate SortedByRecency(s: seq<GitRepo>) {
    forall i, j :: 0 <= i < j < |s| ==> s[i].lastUpdate >= s[j].lastUpdate
  }

  /** The repositories of `s` last updated at time `t`, in their order in `s`. */
  function WithDate(s: seq<GitRepo>, t: int): seq<GitRepo> {
    if s == [] then []
    else (if s[0].lastUpdate == t then [s[0]] else []) + WithDate(s[1..], t)
  }

  lemma WithDateCons(x: GitRepo, s: seq<GitRepo>, t: int)
    ensures WithDate([x] + s, t) == (if x.lastUpdate == t then [x] else []) + WithDate(s, t)
  {
    assert ([x] + s)[1..] == s;
  }

  /** No repository of `s` was updated after time `t`. */
  predicate NoneNewerThan(s: seq<GitRepo>, t: int) {
    forall k :: 0 <= k < |s| ==> s[k].lastUpdate <= t
  }

  lemma SortedCons(y: GitRepo, s: seq<GitRepo>)
    requires SortedByRecency(s) && NoneNewerThan(s, y.lastUpdate)
    ensures SortedByRecency([y] + s)
  {
  }

  /** The bound of `NoneNewerThan` depends only on the elements, not their order. */
  lemma NoneNewerThanPermutation(s: seq<GitRepo>, u: seq<GitRepo>, t: int)
    requires multiset(s) == multiset(u) && NoneNewerThan(u, t)
    ensures NoneNewerThan(s, t)
  {
    forall k | 0 <= k < |s| ensures s[k].lastUpdate <= t {
      assert s[k] in multiset(u);
    }
  }

  /**
   * Inserts `x` before the first repository of `s` not newer than it, so that
   * `x` stays ahead of the equally recent ones that follow it in the input.
   */
  function InsertByRecency(x: GitRepo, s: seq<GitRepo>): (r: seq<GitRepo>)
    requires SortedByRecency(s)
    ensures SortedByRecency(r)
    ensures multiset(r) == multiset(s) + multiset{x}
    decreases |s|
  {
    if s == [] || s[0].lastUpdate <= x.lastUpdate then
      SortedCons(x, s);
      [x] + s
    else
      var tail := s[1..];
      var rest := InsertByRecency(x, tail);
      assert multiset(tail + [x]) == multiset(rest);
      NoneNewerThanPermutation(rest, tail + [x], s[0].lastUpdate);
      SortedCons(s[0], rest);
      assert multiset(s) == multiset{s[0]} + multiset(tail) by {
        assert s == [s[0]] + tail;
      }
      [s[0]] + rest
  }

  /** Inserting `x` puts it first among the repositories of its own date. */
  lemma {:induction false} InsertWithDate(x: GitRepo, s: seq<GitRepo>, t: int)
    requires SortedByRecency(s)
    ensures WithDate(InsertByRecency(x, s), t) == (if x.lastUpdate == t then [x] else []) + WithDate(s, t)
    decreases |s|
  {
    if s == [] || s[0].lastUpdate <= x.lastUpdate {
      WithDateCons(x, s, t);
    } else {
      var rest := InsertByRecency(x, s[1..]);
      assert s == [s[0]] + s[1..];
      InsertWithDate(x, s[1..], t);
      WithDateCons(s[0], rest, t);
      WithDateCons(s[0], s[1..], t);
    }
  }

  /**
   * Stable insertion sort by `lastUpdate`, newest first: the result is sorted,
   * is a permutation of `s`, and keeps the input order among repositories
   * with the same `lastUpdate`.
   */
  function SortByRecency(s: seq<GitRepo>): (r: seq<GitRepo>)
    ensures SortedByRecency(r)
    ensures multiset(r) == multiset(s)
    ensures forall t :: WithDate(r, t) == WithDate(s, t)
  {
    if s == [] then []
    else
      var sorted := SortByRecency(s[1..]);
      var r := InsertByRecency(s[0], sorted);
      assert s == [s[0]] + s[1..];
      assert forall t :: WithDate(r, t) == WithDate(s, t) by {
        forall t ensures WithDate(r, t) == WithDate(s, t) {
          InsertWithDate(s[0], sorted, t);
          WithDateCons(s[0], s[1..], t);
        }
      }
      r
  }

  /** The three platform lists in destructuring order. */
  function Concatenated(gh: Response<GithubPayload>, gl: Response<GitlabPayload>,
                        gi: Response<GitlabPayload>): seq<GitRepo>
  {
    GetGithubRepos(gh) + GetGitlabRepos(gl) + GetGitlabIsimaRepos(gi)
  }

  /**
   * `getAllPublicRepos`: the GitHub, GitLab and GitLab ISIMA lists
   * concatenated, then stably sorted by last update, newest first.
   */
  function GetAllPublicRepos(gh: Response<GithubPayload>, gl: Response<GitlabPayload>,
                             gi: Response<GitlabPayload>): (r: seq<GitRepo>)
    ensures SortedByRecency(r)
    ensures multiset(r) == multiset(Concatenated(gh, gl, gi))
    ensures forall t :: WithDate(r, t) == WithDate(Concatenated(gh, gl, gi), t)
  {
    SortByRecency(Concatenated(gh, gl, gi))
  }

  // ---------------------------------------------------------------------------
  // What each platform contributes to the merged list
  // ---------------------------------------------------------------------------

  /** The repositories of `s` hosted on platform `p`, in order. */
  function OnPlatform(s: seq<GitRepo>, p: Platform): seq<GitRepo> {
    if s == [] then []
    else (if s[0].platform == p then [s[0]] else []) + OnPlatform(s[1..], p)
  }

  lemma {:induction false} OnPlatformCount(s: seq<GitRepo>, p: Platform, x: GitRepo)
    ensures multiset(OnPlatform(s, p))[x] == if x.platform == p then multiset(s)[x] else 0
    decreases |s|
  {
    if s != [] {
      assert s == [s[0]] + s[1..];
      OnPlatformCount(s[1..], p, x);
    }
  }

  lemma {:induction false} OnPlatformAppend(s: seq<GitRepo>, u: seq<GitRepo>, p: Platform)
    ensures OnPlatform(s + u, p) == OnPlatform(s, p) + OnPlatform(u, p)
    decreases |s|
  {
    if s == [] {
      assert s + u == u;
    } else {
      assert (s + u)[1..] == s[1..] + u;
      OnPlatformAppend(s[1..], u, p);
    }
  }

  lemma {:induction false} OnPlatformUniform(s: seq<GitRepo>, p: Platform, q: Platform)
    requires forall i :: 0 <= i < |s| ==> s[i].platform == q
    ensures OnPlatform(s, p) == if p == q then s else []
    decreases |s|
  {
    if s != [] {
      OnPlatformUniform(s[1..], p, q);
    }
  }

  /** Reordering a list reorders each platform's share of it. */
  lemma OnPlatformPermutation(r: seq<GitRepo>, s: seq<GitRepo>, p: Platform)
    requires multiset(r) == multiset(s)
    ensures multiset(OnPlatform(r, p)) == multiset(OnPlatform(s, p))
  {
    forall x: GitRepo ensures multiset(OnPlatform(r, p))[x] == multiset(OnPlatform(s, p))[x] {
      OnPlatformCount(r, p, x);
      OnPlatformCount(s, p, x);
    }
  }

  /** Filtering three lists tagged GitHub, GitLab and GitLab ISIMA picks one of them out. */
  lemma OnPlatformOfThree(a: seq<GitRepo>, b: seq<GitRepo>, c: seq<GitRepo>, p: Platform)
    requires forall i :: 0 <= i < |a| ==> a[i].platform == GitHub
    requires forall i :: 0 <= i < |b| ==> b[i].platform == GitLab
    requires forall i :: 0 <= i < |c| ==> c[i].platform == GitLabIsima
    ensures OnPlatform(a + b + c, p) == match p
                                        case GitHub => a
                                        case GitLab => b
                                        case GitLabIsima => c
  {
    OnPlatformAppend(a + b, c, p);
    OnPlatformAppend(a, b, p);
    OnPlatformUniform(a, p, GitHub);
    OnPlatformUniform(b, p, GitLab);
    OnPlatformUniform(c, p, GitLabIsima);
  }

  /** The platform lists are tagged with their own platform, so filtering picks one list out. */
  lemma OnPlatformConcatenated(gh: Response<GithubPayload>, gl: Response<GitlabPayload>,
                               gi: Response<GitlabPayload>)
    ensures OnPlatform(Concatenated(gh, gl, gi), GitHub) == GetGithubRepos(gh)
    ensures OnPlatform(Concatenated(gh, gl, gi), GitLab) == GetGitlabRepos(gl)
    ensures OnPlatform(Concatenated(gh, gl, gi), GitLabIsima) == GetGitlabIsimaRepos(gi)
  {
    var a, b, c := GetGithubRepos(gh), GetGitlabRepos(gl), GetGitlabIsimaRepos(gi);
    assert forall i :: 0 <= i < |a| ==> a[i].platform == GitHub;
    assert forall i :: 0 <= i < |b| ==> b[i].platform == GitLab;
    assert forall i :: 0 <= i < |c| ==> c[i].platform == GitLabIsima;
    OnPlatformOfThree(a, b, c, GitHub);
    OnPlatformOfThree(a, b, c, GitLab);
    OnPlatformOfThree(a, b, c, GitLabIsima);
  }

  /**
   * Each platform's share of `getAllPublicRepos` is exactly its own list, up
   * to order; so a platform whose request failed contributes nothing, and
   * the other platforms' repositories are all still there.
   */
  lemma PlatformShare(gh: Response<GithubPayload>, gl: Response<GitlabPayload>,
                      gi: Response<GitlabPayload>)
    ensures multiset(OnPlatform(GetAllPublicRepos(gh, gl, gi), GitHub)) == multiset(GetGithubRepos(gh))
    ensures multiset(OnPlatform(GetAllPublicRepos(gh, gl, gi), GitLab)) == multiset(GetGitlabRepos(gl))
    ensures multiset(OnPlatform(GetAllPublicRepos(gh, gl, gi), GitLabIsima)) == multiset(GetGitlabIsimaRepos(gi))
    ensures !gh.Ok? ==> OnPlatform(GetAllPublicRepos(gh, gl, gi), GitHub) == []
    ensures !gl.Ok? ==> OnPlatform(GetAllPublicRepos(gh, gl, gi), GitLab) == []
    ensures !gi.Ok? ==> OnPlatform(GetAllPublicRepos(gh, gl, gi), GitLabIsima) == []
  {
    var all, r := Concatenated(gh, gl, gi), GetAllPublicRepos(gh, gl, gi);
    OnPlatformConcatenated(gh, gl, gi);
    OnPlatformPermutation(r, all, GitHub);
    OnPlatformPermutation(r, all, GitLab);
    OnPlatformPermutation(r, all, GitLabIsima);
    assert |OnPlatform(r, GitHub)| == |multiset(OnPlatform(r, GitHub))|;
    assert |OnPlatform(r, GitLab)| == |multiset(OnPlatform(r, GitLab))|;
    assert |OnPlatform(r, GitLabIsima)| == |multiset(OnPlatform(r, GitLabIsima))|;
  }

  // ---------------------------------------------------------------------------
  // Ids are unique across the merged list
  // ---------------------------------------------------------------------------

  /** No two repositories of `s` share an id. */
  predicate DistinctIds(s: seq<GitRepo>) {
    forall i, j :: 0 <= i < j < |s| ==> s[i].id != s[j].id
  }

  /** A platform answer whose entries carry pairwise different native ids. */
  predicate GithubIdsUnique(resp: Response<GithubPayload>) {
    resp.Ok? ==> forall i, j :: 0 <= i < j < |resp.entries| ==> resp.entries[i].id != resp.entries[j].id
  }

  /** A platform answer whose entries carry pairwise different native ids. */
  predicate GitlabIdsUnique(resp: Response<GitlabPayload>) {
    resp.Ok? ==> forall i, j :: 0 <= i < j < |resp.entries| ==> resp.entries[i].id != resp.entries[j].id
  }

  lemma {:induction false} AtMostOnce(s: seq<GitRepo>, x: GitRepo)
    requires DistinctIds(s)
    ensures multiset(s)[x] <= 1
    decreases |s|
  {
    if s != [] {
      assert s == [s[0]] + s[1..];
      AtMostOnce(s[1..], x);
      if s[0] == x {
        forall k | 0 <= k < |s[1..]| ensures s[1..][k] != x {
          assert s[0].id != s[k + 1].id;
        }
        assert x !in s[1..];
      }
    }
  }

  lemma CountTwo(t: seq<GitRepo>, i: nat, j: nat)
    requires i < j < |t|
    ensures t[i] == t[j] ==> multiset(t)[t[i]] >= 2
  {
    assert t == t[..j] + t[j..];
    assert t[i] in multiset(t[..j]) by { assert t[..j][i] == t[i]; }
    assert t[j] in multiset(t[j..]) by { assert t[j..][0] == t[j]; }
  }

  /** Distinct ids survive any reordering. */
  lemma DistinctIdsPermutation(s: seq<GitRepo>, t: seq<GitRepo>)
    requires multiset(s) == multiset(t) && DistinctIds(s)
    ensures DistinctIds(t)
  {
    forall i, j | 0 <= i < j < |t| ensures t[i].id != t[j].id {
      AtMostOnce(s, t[i]);
      CountTwo(t, i, j);
      assert t[i] != t[j];
      assert t[i] in multiset(s) && t[j] in multiset(s);
      var a :| 0 <= a < |s| && s[a] == t[i];
      var b :| 0 <= b < |s| && s[b] == t[j];
      assert a != b;
    }
  }

  lemma DistinctIdsAppend(a: seq<GitRepo>, b: seq<GitRepo>)
    requires DistinctIds(a) && DistinctIds(b)
    requires forall i, j :: 0 <= i < |a| && 0 <= j < |b| ==> a[i].id != b[j].id
    ensures DistinctIds(a + b)
  {
    forall i, j | 0 <= i < j < |a + b| ensures (a + b)[i].id != (a + b)[j].id {
      if j < |a| {
        assert (a + b)[i] == a[i] && (a + b)[j] == a[j];
      } else if i < |a| {
        assert (a + b)[i] == a[i] && (a + b)[j] == b[j - |a|];
      } else {
        assert (a + b)[i] == b[i - |a|] && (a + b)[j] == b[j - |a|];
      }
    }
  }

  lemma GithubIdsDistinct(gh: Response<GithubPayload>)
    requires GithubIdsUnique(gh)
    ensures DistinctIds(GetGithubRepos(gh))
  {
    var a := GetGithubRepos(gh);
    forall i, j | 0 <= i < j < |a| ensures a[i].id != a[j].id {
      RepoIdInjective(GitHub, gh.entries[i].id, GitHub, gh.entries[j].id);
    }
  }

  lemma GitlabIdsDistinct(gl: Response<GitlabPayload>)
    requires GitlabIdsUnique(gl)
    ensures DistinctIds(GetGitlabRepos(gl))
  {
    var b := GetGitlabRepos(gl);
    forall i, j | 0 <= i < j < |b| ensures b[i].id != b[j].id {
      RepoIdInjective(GitLab, gl.entries[i].id, GitLab, gl.entries[j].id);
    }
  }

  lemma GitlabIsimaIdsDistinct(gi: Response<GitlabPayload>)
    requires GitlabIdsUnique(gi)
    ensures DistinctIds(GetGitlabIsimaRepos(gi))
  {
    var c := GetGitlabIsimaRepos(gi);
    forall i, j | 0 <= i < j < |c| ensures c[i].id != c[j].id {
      RepoIdInjective(GitLabIsima, gi.entries[i].id, GitLabIsima, gi.entries[j].id);
    }
  }

  /** GitHub and GitLab repositories never share an id. */
  lemma GithubGitlabIdsDistinct(gh: Response<GithubPayload>, gl: Response<GitlabPayload>)
    ensures var a, b := GetGithubRepos(gh), GetGitlabRepos(gl);
            forall i, j :: 0 <= i < |a| && 0 <= j < |b| ==> a[i].id != b[j].id
  {
    var a, b := GetGithubRepos(gh), GetGitlabRepos(gl);
    forall i, j | 0 <= i < |a| && 0 <= j < |b| ensures a[i].id != b[j].id {
      RepoIdInjective(GitHub, gh.entries[i].id, GitLab, gl.entries[j].id);
    }
  }

  /** No GitHub or GitLab repository shares an id with a GitLab ISIMA one. */
  lemma IsimaIdsApart(gh: Response<GithubPayload>, gl: Response<GitlabPayload>,
                      gi: Response<GitlabPayload>)
    ensures var ab, c := GetGithubRepos(gh) + GetGitlabRepos(gl), GetGitlabIsimaRepos(gi);
            forall i, j :: 0 <= i < |ab| && 0 <= j < |c| ==> ab[i].id != c[j].id
  {
    var a, b, c := GetGithubRepos(gh), GetGitlabRepos(gl), GetGitlabIsimaRepos(gi);
    var ab: seq<GitRepo> := a + b;
    forall i, j | 0 <= i < |ab| && 0 <= j < |c| ensures ab[i].id != c[j].id {
      if i < |a| {
        assert ab[i] == a[i];
        RepoIdInjective(GitHub, gh.entries[i].id, GitLabIsima, gi.entries[j].id);
      } else {
        assert ab[i] == b[i - |a|];
        RepoIdInjective(GitLab, gl.entries[i - |a|].id, GitLabIsima, gi.entries[j].id);
      }
    }
  }

  /**
   * The ids of `getAllPublicRepos` are pairwise different whenever each
   * platform reports pairwise different native ids: platforms never collide
   * thanks to their prefixes, and within a platform the decimal rendering of
   * the native id is injective.
   */
  lemma AllIdsUnique(gh: Response<GithubPayload>, gl: Response<GitlabPayload>,
                     gi: Response<GitlabPayload>)
    requires GithubIdsUnique(gh) && GitlabIdsUnique(gl) && GitlabIdsUnique(gi)
    ensures DistinctIds(GetAllPublicRepos(gh, gl, gi))
  {
    var a, b, c := GetGithubRepos(gh), GetGitlabRepos(gl), GetGitlabIsimaRepos(gi);
    GithubIdsDistinct(gh);
    GitlabIdsDistinct(gl);
    GitlabIsimaIdsDistinct(gi);
    GithubGitlabIdsDistinct(gh, gl);
    IsimaIdsApart(gh, gl, gi);
    DistinctIdsAppend(a, b);
    DistinctIdsAppend(a + b, c);
    DistinctIdsPermutation(a + b + c, GetAllPublicRepos(gh, gl, gi));
  }
}
