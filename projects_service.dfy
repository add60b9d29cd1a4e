/**
 * The project catalogue service: a fixed list of projects, lookup by id,
 * parsing of GitHub web URLs, and the hydration of each project's README and
 * LICENSE from the GitHub API, with the network taken as given outcomes.
 */
module ProjetsService {
  import opened Wrappers
  import opened JsText
  import opened ProjetModel

  // ---------------------------------------------------------------------------
  // The seed list
  // ---------------------------------------------------------------------------

  /** A seed record: everything past `liveUrl` starts unset. */
  function Entry(id: int, logo: string, titre: string, description: string, etat: Etat,
                 created: JsDate, updated: JsDate, gitUrl: Nullable<string>, liveUrl: Nullable<string>): Projet
  {
    Projet(id, logo, titre, description, etat, created, updated, None, None,
           gitUrl, liveUrl, Undefined, Undefined, None, None)
  }

  /** The eight projects the service starts with (dates are UTC midnights in milliseconds). */
  const Seed: seq<Projet> := [
    Entry(1, "image", "KlientHTTP",
          "Un client HTTP moderne en C avec interface console intéractive et support complet de toutes les méthodes HTTP.",
          EnDev, Time(1765065600000), Time(1766275200000),
          Value(KlientUrl), Undefined),
    Entry(2, "image", "kylianjulia.fr", "Site personnel de Kylian JULIA.",
          EnLigne, Time(1764288000000), Time(1765324800000),
          Value("https://github.com/kylianjoff/kylianjulia"), Value("https://kylianjulia.fr/")),
    Entry(3, "image", "projets.kylianjulia.fr", "Regroupement de tous les projets de Kylian JULIA.",
          EnDev, Time(1765411200000), Time(1766275200000),
          Value("https://github.com/kylianjoff/projets-kylianjulia"), Undefined),
    Entry(4, "image", "Template mail IsiMalt",
          "Template HTML pour les mails du club de bière IsiMalt de l'ISIMA.",
          EnLigne, InvalidDate, InvalidDate,
          Value("https://github.com/kylianjoff/template_mail_isimalt"),
          Value("https://kylianjoff.github.io/template_mail_isimalt/Template_mail_Isimalt.html")),
    Entry(5, "image", "Template mail Shared",
          "Template HTML pour les mails du club caritatif Shared de l'ISIMA.",
          EnLigne, InvalidDate, InvalidDate,
          Value("https://github.com/kylianjoff/template_mail_shared"),
          Value("https://kylianjoff.github.io/template_mail_shared/Template_mail_Shared.html")),
    Entry(6, "image", "Coockie ClickerZZ",
          "Implementation des routes pour un backend d'un jeu de coockie clicker. Les retours sont conditionnés par un front",
          EnDev, Time(1763078400000), Time(1766188800000),
          Value(IsimaUrl), Undefined),
    Entry(7, "", "", "", EnLigne, InvalidDate, Time(1764547200000), Undefined, Undefined),
    Entry(8, "", "", "", EnLigne, InvalidDate, Time(1764460800000), Undefined, Undefined)
  ]

  /** The git URL of the first project (line 17 of the seed). */
  const KlientUrl: string := "https://" + "github.com/" + "kylianjoff" + "/" + "KlientHTTP"

  /** The git URL of the sixth project (line 70 of the seed). */
  const IsimaUrl: string := "https://gitlab.isima.fr/" + "emdufrenne/projet_clicker_cs"

  /** Display names of the states, indexed by `Ordinal`. */
  const NomEtat: seq<string> := [
    "En développement",
    "En ligne",
    "Projet non publié",
    "Projet actuellement en pause",
    "Développement annulé"
  ]

  /** Every state has a display name, and different states have different names. */
  lemma NomEtatNames(e: Etat, f: Etat)
    ensures Ordinal(e) < |NomEtat|
    ensures NomEtat[Ordinal(e)] == NomEtat[Ordinal(f)] <==> e == f
  {
    if e != f {
      assert Ordinal(e) != Ordinal(f);
    }
  }

  /** Which display name goes with which state. */
  lemma NomEtatOfState()
    ensures NomEtat[Ordinal(EnDev)] == "En développement"
    ensures NomEtat[Ordinal(EnLigne)] == "En ligne"
    ensures NomEtat[Ordinal(NonPublie)] == "Projet non publié"
    ensures NomEtat[Ordinal(EnPause)] == "Projet actuellement en pause"
    ensures NomEtat[Ordinal(Annule)] == "Développement annulé"
  {
  }

  // ---------------------------------------------------------------------------
  // Lookup by id
  // ---------------------------------------------------------------------------

  /**
   * `ps.find(p => p.id === id)`: the first project in list order whose id is
   * `id`, and `None` exactly when no project has that id.
   */
  function FindById(ps: seq<Projet>, id: int): (r: Option<Projet>)
    ensures r.None? <==> forall j :: 0 <= j < |ps| ==> ps[j].id != id
    ensures r.Some? ==> r.value.id == id
    ensures r.Some? ==> exists k :: 0 <= k < |ps| && ps[k] == r.value
                                    && forall j :: 0 <= j < k ==> ps[j].id != id
  {
    if ps == [] then None
    else if ps[0].id == id then Some(ps[0])
    else
      var r := FindById(ps[1..], id);
      assert r.Some? ==> exists k :: 0 <= k < |ps| && ps[k] == r.value
                                     && forall j :: 0 <= j < k ==> ps[j].id != id by {
        if r.Some? {
          var k :| 0 <= k < |ps| - 1 && ps[1..][k] == r.value
                   && forall j :: 0 <= j < k ==> ps[1..][j].id != id;
          assert ps[k + 1] == r.value;
          assert forall j :: 0 <= j < k + 1 ==> ps[j].id != id by {
            forall j | 0 <= j < k + 1 ensures ps[j].id != id {
              if j > 0 { assert ps[j] == ps[1..][j - 1]; }
            }
          }
        }
      }
      r
  }

  /** When ids are the 1-based positions, each id in range finds its own entry and no other id is found. */
  lemma LookupByPosition(ps: seq<Projet>, id: int)
    requires forall i :: 0 <= i < |ps| ==> ps[i].id == i + 1
    ensures FindById(ps, id) == if 1 <= id <= |ps| then Some(ps[id - 1]) else None
  {
    var r := FindById(ps, id);
    if r.Some? {
      var k :| 0 <= k < |ps| && ps[k] == r.value && forall j :: 0 <= j < k ==> ps[j].id != id;
      assert k == id - 1;
    }
  }

  /** The seed ids are 1 to 8 in order, so each is found at its own place and no other id is found. */
  lemma SeedLookup(id: int)
    ensures FindById(Seed, id) == if 1 <= id <= 8 then Some(Seed[id - 1]) else None
  {
    SeedIds();
    LookupByPosition(Seed, id);
  }

  /** The seed holds eight projects whose ids are their 1-based positions. */
  lemma SeedIds()
    ensures |Seed| == 8 && forall i :: 0 <= i < |Seed| ==> Seed[i].id == i + 1
  {
  }

  // ---------------------------------------------------------------------------
  // Parsing a GitHub web URL
  // ---------------------------------------------------------------------------

  /** The owner and repository name captured by the pattern. */
  datatype GithubRef = GithubRef(owner: string, repo: string)

  /** The literal part of the pattern `github\.com\/`. */
  const Host: string := "github.com/"

  /**
   * Case-insensitive comparison under the `i` flag without `u`: only ASCII
   * letters fold, so a pattern letter also matches its ASCII upper case.
   */
  predicate HostCharMatches(c: char, p: char) {
    c == p || ('a' <= p <= 'z' && c as int == p as int - 32)
  }

  /** `github.com/` occurs, ignoring case, at position `k` of `u`. */
  predicate HostAt(u: string, k: nat) {
    k + |Host| <= |u| && forall i :: 0 <= i < |Host| ==> HostCharMatches(u[k + i], Host[i])
  }

  /** A string that `[^\/]+` matches entirely: non-empty, without `/`. */
  predicate Segment(s: string) {
    |s| > 0 && forall i :: 0 <= i < |s| ==> s[i] != '/'
  }

  /** `replace(/\.git$/, '')`: one `.git` at the very end is removed. */
  function StripGitSuffix(u: string): string {
    if |u| >= 4 && u[|u| - 4..] == ".git" then u[..|u| - 4] else u
  }

  /** `replace(/\/$/, '')`: one `/` at the very end is removed. */
  function StripTrailingSlash(u: string): string {
    if |u| >= 1 && u[|u| - 1] == '/' then u[..|u| - 1] else u
  }

  /** The cleaning done before matching: trim, then `.git`, then `/`. */
  function CleanUrl(url: string): string {
    StripTrailingSlash(StripGitSuffix(Trim(url)))
  }

  /** The end of the greedy `[^\/]*` run starting at `j`: the first `/` at or after `j`, or the end. */
  function SegmentEnd(u: string, j: nat): (e: nat)
    requires j <= |u|
    ensures j <= e <= |u|
    ensures forall i :: j <= i < e ==> u[i] != '/'
    ensures e == |u| || u[e] == '/'
    decreases |u| - j
  {
    if j == |u| || u[j] == '/' then j else SegmentEnd(u, j + 1)
  }

  /** The pattern tried at position `k`: host, greedy owner, `/`, greedy repo. */
  function MatchAt(u: string, k: nat): (r: Option<GithubRef>)
    requires k <= |u|
    ensures r.Some? ==> Segment(r.value.owner) && Segment(r.value.repo)
  {
    if !HostAt(u, k) then None
    else
      var e1 := SegmentEnd(u, k + |Host|);
      if e1 == k + |Host| || e1 == |u| then None
      else
        var e2 := SegmentEnd(u, e1 + 1);
        if e2 == e1 + 1 then None
        else Some(GithubRef(u[k + |Host|..e1], u[e1 + 1..e2]))
  }

  /**
   * The leftmost position from `k` on where the pattern matches, or `|u| + 1`
   * when it matches nowhere from `k` on.
   */
  function FirstMatchFrom(u: string, k: nat): (j: nat)
    requires k <= |u| + 1
    ensures k <= j <= |u| + 1
    ensures j <= |u| ==> MatchAt(u, j).Some?
    ensures forall i :: k <= i < j ==> MatchAt(u, i).None?
    decreases |u| + 1 - k
  {
    if k > |u| || MatchAt(u, k).Some? then k else FirstMatchFrom(u, k + 1)
  }

  /**
   * `parseGithubRepo(url)`: the captures at the leftmost match in the cleaned
   * URL, which are both non-empty and hold no `/`. The regular expression is
   * not anchored, so the match may start anywhere.
   */
  function ParseGithubRepo(url: string): (r: Option<GithubRef>)
    ensures r.Some? ==> Segment(r.value.owner) && Segment(r.value.repo)
  {
    var u := CleanUrl(url);
    var j := FirstMatchFrom(u, 0);
    if j <= |u| then MatchAt(u, j) else None
  }

  /** `github.com/<owner>/<repo>` (host case-insensitive) occurs in `u` at `k`. */
  ghost predicate Occurrence(u: string, k: nat, owner: string, repo: string) {
    var o := k + |Host|;
    var s := o + |owner|;
    && s + 1 + |repo| <= |u|
    && HostAt(u, k) && Segment(owner) && Segment(repo)
    && u[o..s] == owner && u[s] == '/' && u[s + 1..s + 1 + |repo|] == repo
  }

  /**
   * What `u.match(/github\.com\/([^\/]+)\/([^\/]+)/i)` returns: the leftmost
   * occurrence, with the repository segment running up to the next `/` or the end.
   */
  ghost predicate RegexMatch(u: string, k: nat, m: GithubRef) {
    && Occurrence(u, k, m.owner, m.repo)
    && (var e := k + |Host| + |m.owner| + 1 + |m.repo|; e == |u| || u[e] == '/')
    && forall j: nat, o, p :: j < k ==> !Occurrence(u, j, o, p)
  }

  lemma MatchAtSound(u: string, k: nat)
    requires k <= |u| && MatchAt(u, k).Some?
    ensures var m := MatchAt(u, k).value;
            && Occurrence(u, k, m.owner, m.repo)
            && (var e := k + |Host| + |m.owner| + 1 + |m.repo|; e == |u| || u[e] == '/')
  {
    var e1 := SegmentEnd(u, k + |Host|);
    var e2 := SegmentEnd(u, e1 + 1);
    assert MatchAt(u, k).value == GithubRef(u[k + |Host|..e1], u[e1 + 1..e2]);
  }

  lemma MatchAtComplete(u: string, k: nat, owner: string, repo: string)
    requires Occurrence(u, k, owner, repo)
    ensures k <= |u| && MatchAt(u, k).Some? && MatchAt(u, k).value.owner == owner
  {
    var o := k + |Host|;
    var s := o + |owner|;
    var e1 := SegmentEnd(u, o);
    forall i | o <= i < s ensures u[i] != '/' {
      assert u[i] == u[o..s][i - o];
    }
    assert e1 == s;
    assert u[s + 1] == repo[0];
    var e2 := SegmentEnd(u, e1 + 1);
    assert e2 > e1 + 1;
  }

  /**
   * `parseGithubRepo` fails exactly when the cleaned URL holds no case-insensitive
   * `github.com/` followed by two non-empty `/`-separated segments; when it
   * succeeds, its captures are those of the leftmost such occurrence.
   */
  lemma ParseGithubRepoMeaning(url: string)
    ensures ParseGithubRepo(url).None? <==>
            forall k: nat, o, p :: !Occurrence(CleanUrl(url), k, o, p)
    ensures ParseGithubRepo(url).Some? ==>
            exists k: nat :: RegexMatch(CleanUrl(url), k, ParseGithubRepo(url).value)
  {
    var u := CleanUrl(url);
    var j := FirstMatchFrom(u, 0);
    if j > |u| {
      forall k: nat, o, p | Occurrence(u, k, o, p) ensures false {
        MatchAtComplete(u, k, o, p);
      }
    } else {
      MatchAtSound(u, j);
      forall i: nat, o, p | i < j ensures !Occurrence(u, i, o, p) {
        if Occurrence(u, i, o, p) { MatchAtComplete(u, i, o, p); }
      }
      assert RegexMatch(u, j, MatchAt(u, j).value);
    }
  }

  /** Whitespace-free ends make `trim` the identity. */
  lemma TrimUnchanged(s: string)
    requires |s| > 0 && !IsJsWhitespace(s[0]) && !IsJsWhitespace(s[|s| - 1])
    ensures Trim(s) == s
  {
    assert LeadingWhitespace(s) == 0;
    assert TrailingStart(s) == |s|;
  }

  /**
   * Cleaning removes one trailing `.git`, then one trailing `/`: so `base.git`
   * and `base/` both clean to `base`, while `base.git/` keeps its `.git`.
   */
  lemma CleanUrlOrder(base: string)
    requires |base| > 0 && !IsJsWhitespace(base[0]) && base[|base| - 1] != '/'
    ensures CleanUrl(base + ".git") == base
    ensures CleanUrl(base + "/") == base
    ensures CleanUrl(base + ".git/") == base + ".git"
  {
    CleanGitSuffix(base);
    CleanSlash(base);
    CleanGitThenSlash(base);
  }

  lemma CleanGitSuffix(base: string)
    requires |base| > 0 && !IsJsWhitespace(base[0]) && base[|base| - 1] != '/'
    ensures CleanUrl(base + ".git") == base
  {
    var a := base + ".git";
    TrimUnchanged(a);
    assert a[|a| - 4..] == ".git" && a[..|a| - 4] == base;
  }

  lemma CleanSlash(base: string)
    requires |base| > 0 && !IsJsWhitespace(base[0]) && base[|base| - 1] != '/'
    ensures CleanUrl(base + "/") == base
  {
    var b := base + "/";
    TrimUnchanged(b);
    assert |b| < 4 || b[|b| - 4..] != ".git" by {
      assert b[|b| - 1] == '/';
    }
    assert b[..|b| - 1] == base;
  }

  lemma CleanGitThenSlash(base: string)
    requires |base| > 0 && !IsJsWhitespace(base[0]) && base[|base| - 1] != '/'
    ensures CleanUrl(base + ".git/") == base + ".git"
  {
    var c := base + ".git/";
    TrimUnchanged(c);
    assert c[|c| - 4..] != ".git" by {
      assert c[|c| - 1] == '/';
    }
    assert c[..|c| - 1] == base + ".git";
  }

  // ---------------------------------------------------------------------------
  // Hydrating README and LICENSE
  // ---------------------------------------------------------------------------

  /** The body fetch through `download_url`: rejected (fetch or `text()`), non-OK, or its text. */
  datatype RawFetch = RawThrew | RawNotOk | RawOk(text: string)

  /**
   * One `/readme` or `/license` API call: rejected (fetch or `json()`), answered
   * non-OK, or answered OK with a JSON body holding `content` and `download_url`.
   */
  datatype FileFetch = Threw | NotOk | Ok(content: Option<string>, downloadUrl: Option<string>, raw: RawFetch)

  /** The two calls made for one project. */
  datatype RepoFetch = RepoFetch(readme: FileFetch, license: FileFetch)

  /** JavaScript truthiness of a string property: present and not empty. */
  predicate Truthy(s: Option<string>) {
    s.Some? && s.value != ""
  }

  /** `p.gitUrl || ''`. */
  function GitUrlText(p: Projet): string {
    match p.gitUrl
    case Value(s) => s
    case _ => ""
  }

  /** `if (p.gitUrl)`: the project has a non-empty git URL. */
  predicate HasGitUrl(p: Projet) {
    p.gitUrl.Value? && p.gitUrl.value != ""
  }

  /**
   * The value a README or LICENSE field holds after one try/catch block, given
   * the value before it. `atob` answers `None` where it would throw.
   */
  function FileAfter(current: Nullable<string>, f: FileFetch, atob: string -> Option<string>): Nullable<string> {
    match f
    case Threw => Null
    case NotOk => Null
    case Ok(content, url, raw) =>
      if Truthy(content) then
        (match atob(content.value) case Some(s) => Value(s) case None => Null)
      else if Truthy(url) then
        (match raw case RawThrew => Null case RawNotOk => current case RawOk(t) => Value(t))
      else current
  }

  /**
   * The outcomes of one block: an error or a non-OK answer clears the field,
   * `content` is stored decoded (a throwing `atob` clears the field), and an OK
   * answer without `content` stores the `download_url` body, clears the field
   * when that fetch rejects, and keeps the field otherwise.
   */
  lemma FileAfterOutcomes(current: Nullable<string>, f: FileFetch, atob: string -> Option<string>)
    ensures f.Threw? || f.NotOk? ==> FileAfter(current, f, atob) == Null
    ensures f.Ok? && Truthy(f.content) && atob(f.content.value).Some? ==>
            FileAfter(current, f, atob) == Value(atob(f.content.value).value)
    ensures f.Ok? && !Truthy(f.content) && (!Truthy(f.downloadUrl) || f.raw.RawNotOk?) ==>
            FileAfter(current, f, atob) == current
    ensures f.Ok? && Truthy(f.content) && atob(f.content.value).None? ==> FileAfter(current, f, atob) == Null
    ensures f.Ok? && !Truthy(f.content) && Truthy(f.downloadUrl) && f.raw.RawOk? ==>
            FileAfter(current, f, atob) == Value(f.raw.text)
    ensures f.Ok? && !Truthy(f.content) && Truthy(f.downloadUrl) && f.raw.RawThrew? ==>
            FileAfter(current, f, atob) == Null
    ensures FileAfter(current, f, atob) != current ==>
            FileAfter(current, f, atob) == Null || (f.Ok? && (Truthy(f.content) || f.raw.RawOk?))
  {
  }

  /**
   * The state a project is left in by `fetchRepoFiles`: only `readme`,
   * `license` and the two loading flags differ, both flags are false, both
   * fields are null when the URL does not parse, and otherwise each field is
   * the outcome of its own block.
   */
  predicate HydratedFrom(p: Projet, q: Projet, f: RepoFetch, atob: string -> Option<string>) {
    && q == p.(readme := q.readme, license := q.license,
               readmeLoading := Some(false), licenseLoading := Some(false))
    && if ParseGithubRepo(GitUrlText(p)).None? then q.readme == Null && q.license == Null
       else q.readme == FileAfter(p.readme, f.readme, atob) && q.license == FileAfter(p.license, f.license, atob)
  }

  /** `fetchRepoFiles(p)`: the record updated step by step as the source does it. */
  method FetchRepoFiles(p: Projet, f: RepoFetch, atob: string -> Option<string>) returns (q: Projet)
    ensures HydratedFrom(p, q, f, atob)
    ensures q.readmeLoading == Some(false) && q.licenseLoading == Some(false)
  {
    q := p.(readmeLoading := Some(true), licenseLoading := Some(true));
    assert GitUrlText(q) == GitUrlText(p);
    var parsed := ParseGithubRepo(GitUrlText(q));
    if parsed.None? {
      q := q.(readme := Null, license := Null);
      q := q.(readmeLoading := Some(false), licenseLoading := Some(false));
      return;
    }
    var readme := FileAfter(q.readme, f.readme, atob);
    q := q.(readme := readme);
    q := q.(readmeLoading := Some(false));
    var license := FileAfter(q.license, f.license, atob);
    q := q.(license := license);
    q := q.(licenseLoading := Some(false));
    assert q == p.(readme := readme, license := license,
                   readmeLoading := Some(false), licenseLoading := Some(false));
  }

  /** What start-up leaves at one position: hydrated when it has a git URL, untouched otherwise. */
  predicate Settled(p: Projet, q: Projet, f: RepoFetch, atob: string -> Option<string>) {
    if HasGitUrl(p) then HydratedFrom(p, q, f, atob) else q == p
  }

  /**
   * The list after `initializeProjects`: same length and order, projects with a
   * git URL hydrated with the outcomes for their position, the others untouched.
   */
  predicate InitializedFrom(ps: seq<Projet>, qs: seq<Projet>, net: nat -> RepoFetch, atob: string -> Option<string>) {
    && |qs| == |ps|
    && forall i :: 0 <= i < |ps| ==> Settled(ps[i], qs[i], net(i), atob)
  }

  /** Hydration keeps the length of the list and the id at every position. */
  lemma InitializeKeepsIds(ps: seq<Projet>, qs: seq<Projet>, net: nat -> RepoFetch, atob: string -> Option<string>)
    requires InitializedFrom(ps, qs, net, atob)
    ensures |qs| == |ps| && forall i :: 0 <= i < |ps| ==> qs[i].id == ps[i].id
  {
    forall i | 0 <= i < |ps| ensures qs[i].id == ps[i].id {
      assert Settled(ps[i], qs[i], net(i), atob);
    }
  }

  /** Hydration keeps every id in its place, so lookups find the same entries, hydrated. */
  lemma InitializeKeepsLookup(ps: seq<Projet>, qs: seq<Projet>, net: nat -> RepoFetch,
                              atob: string -> Option<string>, id: int)
    requires InitializedFrom(ps, qs, net, atob)
    ensures FindById(qs, id).None? <==> FindById(ps, id).None?
    ensures FindById(qs, id).Some? ==>
            exists k :: 0 <= k < |ps| && ps[k] == FindById(ps, id).value && qs[k] == FindById(qs, id).value
  {
    InitializeKeepsIds(ps, qs, net, atob);
    var r, s := FindById(ps, id), FindById(qs, id);
    if s.Some? {
      var k :| 0 <= k < |qs| && qs[k] == s.value && forall j :: 0 <= j < k ==> qs[j].id != id;
      var l :| 0 <= l < |ps| && ps[l] == r.value && forall j :: 0 <= j < l ==> ps[j].id != id;
      assert k == l;
    }
  }

  /** After start-up the six projects with a git URL have both loading flags false. */
  lemma SeedLinkedSettled(qs: seq<Projet>, net: nat -> RepoFetch, atob: string -> Option<string>)
    requires InitializedFrom(Seed, qs, net, atob)
    ensures forall i :: 0 <= i < 6 ==> qs[i].readmeLoading == Some(false) && qs[i].licenseLoading == Some(false)
  {
    assert forall i :: 0 <= i < 6 ==> HasGitUrl(Seed[i]);
  }

  /**
   * After start-up the GitLab ISIMA project has null README and LICENSE: its
   * URL does not parse, so nothing is fetched for it.
   */
  lemma SeedIsimaNotFetched(qs: seq<Projet>, net: nat -> RepoFetch, atob: string -> Option<string>)
    requires InitializedFrom(Seed, qs, net, atob)
    ensures qs[5].readme == Null && qs[5].license == Null
  {
    assert HasGitUrl(Seed[5]);
    ParseIsimaFails(GitUrlText(Seed[5]));
  }

  /** After start-up the two projects without a git URL are exactly as seeded. */
  lemma SeedUnlinkedUntouched(qs: seq<Projet>, net: nat -> RepoFetch, atob: string -> Option<string>)
    requires InitializedFrom(Seed, qs, net, atob)
    ensures qs[6] == Seed[6] && qs[7] == Seed[7]
  {
  }

  /** After start-up every seed id still finds its own, hydrated, entry. */
  lemma SeedLookupInitialized(qs: seq<Projet>, net: nat -> RepoFetch, atob: string -> Option<string>, id: int)
    requires InitializedFrom(Seed, qs, net, atob)
    ensures FindById(qs, id) == if 1 <= id <= 8 then Some(qs[id - 1]) else None
  {
    SeedIds();
    InitializeKeepsIds(Seed, qs, net, atob);
    assert forall i :: 0 <= i < |qs| ==> qs[i].id == i + 1;
    LookupByPosition(qs, id);
  }

  // ---------------------------------------------------------------------------
  // Concrete URLs
  // ---------------------------------------------------------------------------

  /** The first seed URL yields owner `kylianjoff` and repository `KlientHTTP`. */
  lemma ParseKlientHttp()
    ensures ParseGithubRepo(GitUrlText(Seed[0])) == Some(GithubRef("kylianjoff", "KlientHTTP"))
  {
    ParseKlientUrl(GitUrlText(Seed[0]));
  }

  lemma ParseKlientUrl(url: string)
    requires url == KlientUrl
    ensures ParseGithubRepo(url) == Some(GithubRef("kylianjoff", "KlientHTTP"))
  {
    KlientUrlClean(url);
    KlientUrlMatch(url);
    forall i: nat | i < 8 ensures !HostAt(url, i) {
      KlientUrlHostAt(url, i);
    }
    ParseAtOnlyHost(url, 8, GithubRef("kylianjoff", "KlientHTTP"));
  }

  /** A clean URL whose first possible host position matches parses to that match. */
  lemma ParseAtOnlyHost(u: string, k: nat, m: GithubRef)
    requires CleanUrl(u) == u && k <= |u| && MatchAt(u, k) == Some(m)
    requires forall i: nat :: i < k ==> !HostAt(u, i)
    ensures ParseGithubRepo(u) == Some(m)
  {
    var j := FirstMatchFrom(u, 0);
    assert MatchAt(u, k).Some?;
    assert j <= k;
    assert MatchAt(u, j).Some?;
    assert HostAt(u, j);
    assert j == k;
    assert ParseGithubRepo(u) == MatchAt(CleanUrl(u), j);
  }

  lemma KlientUrlMatch(u: string)
    requires u == KlientUrl
    ensures 8 <= |u| && MatchAt(u, 8) == Some(GithubRef("kylianjoff", "KlientHTTP"))
  {
    KlientUrlOccurrence(u);
    MatchAtComplete(u, 8, "kylianjoff", "KlientHTTP");
    MatchAtSound(u, 8);
    var m := MatchAt(u, 8).value;
    KlientUrlCaptures(u, m.owner, m.repo);
  }

  lemma KlientUrlClean(u: string)
    requires u == KlientUrl
    ensures CleanUrl(u) == u
  {
    TrimUnchanged(u);
    assert StripGitSuffix(u) == u;
  }

  lemma KlientUrlOccurrence(u: string)
    requires u == KlientUrl
    ensures Occurrence(u, 8, "kylianjoff", "KlientHTTP")
  {
    assert u[8..19] == Host;
    forall i | 0 <= i < |Host| ensures HostCharMatches(u[8 + i], Host[i]) {
      assert u[8 + i] == u[8..19][i];
    }
    assert u[19..29] == "kylianjoff" && u[29] == '/' && u[30..40] == "KlientHTTP";
  }

  lemma KlientUrlHostAt(u: string, k: nat)
    requires u == KlientUrl
    ensures HostAt(u, k) ==> k == 8
  {
    if HostAt(u, k) {
      assert HostCharMatches(u[k + 6], Host[6]);
    }
  }

  lemma KlientUrlCaptures(u: string, owner: string, repo: string)
    requires u == KlientUrl
    requires Occurrence(u, 8, owner, repo)
    requires var e := 8 + |Host| + |owner| + 1 + |repo|; e == |u| || u[e] == '/'
    ensures owner == "kylianjoff" && repo == "KlientHTTP"
  {
    assert u[19 + |owner|] == '/';
    assert |owner| == 10;
  }

  /** The GitLab ISIMA URL of the sixth project does not parse. */
  lemma ParseIsimaFails(url: string)
    requires url == IsimaUrl
    ensures ParseGithubRepo(url).None?
  {
    TrimUnchanged(url);
    assert StripGitSuffix(url) == url;
    forall k: nat ensures !HostAt(url, k) {
      IsimaUrlNoHost(url, k);
    }
    ParseWithoutHost(url);
  }

  lemma IsimaUrlNoHost(u: string, k: nat)
    requires u == IsimaUrl
    ensures !HostAt(u, k)
  {
    if k + |Host| <= |u| {
      assert !HostCharMatches(u[k + 6], Host[6]) || !HostCharMatches(u[k + 10], Host[10]);
    }
  }

  /** A clean URL without `github.com/` anywhere does not parse. */
  lemma ParseWithoutHost(u: string)
    requires CleanUrl(u) == u && forall k: nat :: !HostAt(u, k)
    ensures ParseGithubRepo(u).None?
  {
    forall k: nat | k <= |u| ensures MatchAt(u, k).None? {
      assert !HostAt(u, k);
    }
    assert FirstMatchFrom(u, 0) == |u| + 1;
  }

  // ---------------------------------------------------------------------------
  // The service object
  // ---------------------------------------------------------------------------

  /** `ProjetService`: owns the project list (the signal's current value). */
  class ProjetService {
    var projets: seq<Projet>

    /** Builds the seed list and runs `initializeProjects` on it. */
    constructor (net: nat -> RepoFetch, atob: string -> Option<string>)
      ensures InitializedFrom(Seed, projets, net, atob)
    {
      projets := Seed;
      new;
      InitializeProjects(net, atob);
    }

    /**
     * `initializeProjects`: walks the list in order and hydrates each project
     * with a git URL, using the outcomes `net` gives for its position.
     */
    method InitializeProjects(net: nat -> RepoFetch, atob: string -> Option<string>)
      modifies this
      ensures InitializedFrom(old(projets), projets, net, atob)
    {
      var i := 0;
      while i < |projets|
        invariant 0 <= i <= |projets| == |old(projets)|
        invariant forall j :: 0 <= j < i ==> Settled(old(projets)[j], projets[j], net(j), atob)
        invariant forall j :: i <= j < |projets| ==> projets[j] == old(projets)[j]
      {
        if HasGitUrl(projets[i]) {
          var q := FetchRepoFiles(projets[i], net(i), atob);
          projets := projets[i := q];
        }
        i := i + 1;
      }
    }

    /** `getProjetById`: the first project of the current list with that id. */
    function GetProjetById(id: int): (r: Option<Projet>)
      reads this
      ensures r.None? <==> forall j :: 0 <= j < |projets| ==> projets[j].id != id
      ensures r.Some? ==> r.value.id == id
      ensures r.Some? ==> exists k :: 0 <= k < |projets| && projets[k] == r.value
                                      && forall j :: 0 <= j < k ==> projets[j].id != id
    {
      FindById(projets, id)
    }
  }
}
