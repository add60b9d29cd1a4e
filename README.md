# Portfolio project and repository services in Dafny

This project models the two services of an Angular portfolio site and proves
properties about them.

The project service (`ProjetService`) does four things:

- It holds a fixed list of eight `Projet` records.
- It looks projects up by numeric id.
- It extracts a GitHub owner and repository from a project's git URL.
- At start-up it walks the linked projects. For each one whose git URL parses as a GitHub URL, it asks the GitHub API for a README and a LICENSE, fills the `readme` and `license` fields from the answers and clears the loading flags. The others get a null README and LICENSE without a request. The request URLs are written in single quotes, so they never name the project's repository (see "## Left out").

The repository service (`GitService`) lists public repositories from GitHub, GitLab.com and the
GitLab instance of ISIMA:

- It normalises each platform's payload into one `GitRepo` shape.
- It merges the three lists, newest update first.

The modules:

- `Wrappers` holds `Option` and a three-way `Nullable`. The second one separates a property that is absent (`undefined`) from one that is `null`.
- `JsText` holds the JavaScript string behaviour the services depend on: `String.prototype.trim` with ECMAScript's whitespace set, and the decimal rendering of a non-negative integer id in a template literal (for ids below 2^53).
- `ProjetModel` holds the `Etat` enumeration, the `Projet` record, and JavaScript dates as a time value or the invalid date.
- `ProjetsService` holds the following:
  - the seed list;
  - `find` by id;
  - the URL clean-up and the case-insensitive pattern `github\.com\/([^\/]+)\/([^\/]+)`, modelled as a leftmost, greedy scan;
  - the README/LICENSE hydration of one project, as a method that updates the record step by step;
  - the service class, whose `projets` field stands for the signal. `InitializeProjects` is its start-up loop.
- `GitService` holds the three normalisers, the three platform functions, and the stable newest-first sort behind `getAllPublicRepos`.

Network answers are inputs:

- Each API call is an outcome datatype: it threw, it answered non-OK, or it answered OK with its payload.
- `atob` is a function parameter that answers `None` where it would throw.
- The start-up loop takes the outcomes for each list position as a function `nat -> RepoFetch`.

## Model

| member | source | states |
|---|---|---|
| ProjetModel.Ordinal | src/app/models/projet.model.ts:1-7 | The numeric value of a state is below 5, the number of enum members |
| ProjetModel.OrdinalOnto | src/app/models/projet.model.ts:1-7 | Every number from 0 to 4 is the value of some state |
| ProjetModel.OrdinalInjective | src/app/models/projet.model.ts:1-7 | Different states have different numbers |
| JsText.Trim | src/app/services/projects.service.ts:177 | `trim()` returns the infix of its input that starts right after the leading whitespace. A non-empty result starts and ends with a non-whitespace character |
| JsText.TrimRemovesWhitespace | src/app/services/projects.service.ts:177 | Everything `trim()` drops, before and after the result, is whitespace |
| JsText.Decimal | src/app/services/git.service.ts:62 | `${id}` on a non-negative integer id below 2^53 gives a non-empty string of digits. It is one digit exactly when the number is below 10, and it has no leading zero otherwise |
| JsText.DecimalInjective | src/app/services/git.service.ts:62 | Different integers render as different strings. The same rendering is used at lines 102 and 142 |
| ProjetsService.NomEtatNames | src/app/services/projects.service.ts:92-98 | Every state's number indexes a display name in `nomEtat`, and different states get different names |
| ProjetsService.NomEtatOfState | src/app/services/projects.service.ts:92-98 | Each state's display name: `EN_DEV` is "En développement", `EN_LIGNE` "En ligne", `NON_PUBLIE` "Projet non publié", `EN_PAUSE` "Projet actuellement en pause" and `ANNULE` "Développement annulé" |
| ProjetsService.FindById | src/app/services/projects.service.ts:115-117 | `find` returns none exactly when no project has the id. Otherwise it returns a project with that id, at a position where no earlier project has it |
| ProjetsService.LookupByPosition | src/app/services/projects.service.ts:115-117 | When the ids are the 1-based positions, an id from 1 to the length finds its own entry and any other id finds nothing |
| ProjetsService.SeedIds | src/app/services/projects.service.ts:8-90 | The seed holds eight projects, whose ids are their 1-based positions |
| ProjetsService.SeedLookup | src/app/services/projects.service.ts:8-90 | In the seed list, ids 1 to 8 each find their own entry, and every other id finds nothing |
| ProjetsService.MatchAt | src/app/services/projects.service.ts:178 | A match anchored at a position captures two non-empty segments without `/` |
| ProjetsService.FirstMatchFrom | src/app/services/projects.service.ts:178 | The result is the leftmost position, from the start position on, where the pattern matches. No earlier position matches. When the pattern matches nowhere, the result is one past the end |
| ProjetsService.ParseGithubRepo | src/app/services/projects.service.ts:175-186 | A parsed owner and repository are both non-empty and contain no `/` |
| ProjetsService.MatchAtSound | src/app/services/projects.service.ts:178 | A scan hit at a position is an occurrence of the pattern there, with the repository capture maximal |
| ProjetsService.MatchAtComplete | src/app/services/projects.service.ts:178 | Any occurrence of the pattern at a position makes the scan hit at that position |
| ProjetsService.ParseGithubRepoMeaning | src/app/services/projects.service.ts:177-182 | The result is null exactly when the cleaned URL has no case-insensitive `github.com/` followed by two `/`-separated non-empty segments. Otherwise it is the leftmost such match with greedy captures |
| ProjetsService.CleanUrlOrder | src/app/services/projects.service.ts:177 | One trailing `.git` is removed before one trailing `/`. So `…/repo.git` and `…/repo/` both clean to `…/repo`, and `…/repo.git/` cleans to `…/repo.git` |
| ProjetsService.ParseAtOnlyHost | src/app/services/projects.service.ts:177-180 | A clean URL parses to the match at a position when no `github.com/` occurs before that position |
| ProjetsService.ParseWithoutHost | src/app/services/projects.service.ts:178-182 | A clean URL with no case-insensitive `github.com/` anywhere does not parse |
| ProjetsService.ParseKlientHttp | src/app/services/projects.service.ts:17 | The first seed URL yields owner `kylianjoff` and repository `KlientHTTP` |
| ProjetsService.ParseIsimaFails | src/app/services/projects.service.ts:70 | The GitLab ISIMA seed URL does not parse |
| ProjetsService.FileAfterOutcomes | src/app/services/projects.service.ts:134-151 | For one README or LICENSE block, every outcome is pinned. A thrown error or a non-OK answer sets the field to null. Decodable `content` stores the decoded text, and an `atob` that throws sets null. Without `content`, a truthy `download_url` with an OK raw fetch stores its text, and a rejected raw fetch or `text()` sets null. No `download_url`, or a non-OK raw fetch, leaves the field unchanged |
| ProjetsService.FetchRepoFiles | src/app/services/projects.service.ts:119-173 | Only `readme`, `license` and the two loading flags change, and both flags end false. An unparsable URL nulls both fields and fetches nothing. Otherwise each field is the outcome of its own block, using the answers for README and LICENSE in turn |
| ProjetsService.InitializeKeepsIds | src/app/services/projects.service.ts:106-113 | Start-up keeps the length of the list and the id at every position |
| ProjetsService.InitializeKeepsLookup | src/app/services/projects.service.ts:115-117 | After start-up an id finds something exactly when it did before, and it finds the hydrated version of the same entry |
| ProjetsService.SeedLinkedSettled | src/app/services/projects.service.ts:106-113 | After start-up, the six seed projects that have a git URL have both loading flags false |
| ProjetsService.SeedIsimaNotFetched | src/app/services/projects.service.ts:123-129 | After start-up, the GitLab ISIMA project has null README and LICENSE |
| ProjetsService.SeedUnlinkedUntouched | src/app/services/projects.service.ts:109 | After start-up, the two seed projects without a git URL are unchanged |
| ProjetsService.SeedLookupInitialized | src/app/services/projects.service.ts:115-117 | After start-up, ids 1 to 8 find their own hydrated entries and every other id finds nothing |
| ProjetsService.ProjetService.constructor | src/app/services/projects.service.ts:102-104 | The new service holds the seed list hydrated position by position |
| ProjetsService.ProjetService.InitializeProjects | src/app/services/projects.service.ts:106-113 | In list order, each project with a truthy git URL is replaced by its hydrated version and every other project stays as it was. The list keeps its length and order |
| ProjetsService.ProjetService.GetProjetById | src/app/services/projects.service.ts:115-117 | Returns none exactly when no project in the list has the id. Otherwise it returns the first project in list order with that id |
| GitService.OrNull | src/app/services/git.service.ts:67 | `value \|\| null` keeps a non-empty string and turns an absent or empty one into null |
| GitService.FromGithub | src/app/services/git.service.ts:61-72 | A GitHub entry becomes a repository tagged `github`, with id `github-` plus the native id. Its live URL is the homepage when truthy and null otherwise |
| GitService.FromGitlab | src/app/services/git.service.ts:101-112 | A GitLab entry becomes a repository tagged `gitlab`, with id `gitlab-` plus the native id. Its live URL is `pages_url` when truthy and null otherwise |
| GitService.FromGitlabIsima | src/app/services/git.service.ts:141-152 | An ISIMA entry becomes a repository tagged `gitlab-isima`, with id `gitlab-isima-` plus the native id, and never has a live URL |
| GitService.GetGithubRepos | src/app/services/git.service.ts:39-77 | A non-OK status or a thrown error gives the empty list. Otherwise there is exactly one normalised repository per payload entry, in payload order |
| GitService.GetGitlabRepos | src/app/services/git.service.ts:79-117 | A non-OK status or a thrown error gives the empty list. Otherwise there is exactly one normalised repository per payload entry, in payload order |
| GitService.GetGitlabIsimaRepos | src/app/services/git.service.ts:119-157 | A non-OK status or a thrown error gives the empty list. Otherwise there is exactly one normalised repository per payload entry, in payload order |
| GitService.RepoIdInjective | src/app/services/git.service.ts:62 | Two composed ids are equal exactly when platform and native id are both equal. Ids from different platforms never collide (the prefixes are at lines 62, 102 and 142) |
| GitService.InsertByRecency | src/app/services/git.service.ts:36 | Inserting into a list sorted newest first keeps it sorted, and adds exactly the inserted repository |
| GitService.InsertWithDate | src/app/services/git.service.ts:36 | The inserted repository goes ahead of the repositories with the same update time that were already in the list |
| GitService.SortByRecency | src/app/services/git.service.ts:36 | The sort result has non-increasing `lastUpdate` and is a permutation of the input. For every update time, the repositories with that time keep their input order, as a stable `sort` guarantees |
| GitService.GetAllPublicRepos | src/app/services/git.service.ts:26-37 | The merged list is sorted newest first, is a permutation of the GitHub, GitLab and ISIMA lists concatenated, and keeps the concatenation order among equal update times |
| GitService.OnPlatformConcatenated | src/app/services/git.service.ts:33 | Filtering the concatenation by platform gives back exactly that platform's own list |
| GitService.PlatformShare | src/app/services/git.service.ts:26-37 | Each platform's share of the merged list is its own list up to order. A platform whose request failed contributes nothing, and the repositories of the others are all kept |
| GitService.DistinctIdsPermutation | src/app/services/git.service.ts:36 | Reordering keeps ids pairwise distinct |
| GitService.AllIdsUnique | src/app/services/git.service.ts:26-37 | When each platform reports pairwise different native ids, the merged list has pairwise different ids |

## Left out

- Network access:
  - `fetch`, `response.json()`, `raw.text()`, request headers and the optional access tokens are not modelled. Each call is replaced by its outcome, given as input.
  - The README and LICENSE request URLs in `projects.service.ts` (lines 135 and 154) are single-quoted, so `${owner}` and `${repo}` are never substituted into them. The model therefore makes no claim about which URL is requested.
- `atob` is a parameter. Base64 decoding is not modelled.
- Concurrency and async sequencing are not modelled. This covers `Promise.all` and the interleaving of `await`. The three platform results are inputs in destructuring order, and `initializeProjects` runs its hydrations one after another.
- Angular signals and dependency injection:
  - `projetsSignal` is the `projets` field.
  - The `set([...])` at the end of `fetchRepoFiles` only notifies the signal's readers. It is modelled by writing the hydrated record back at its position in the list.
  - The same object is shared between the list and the hydration, so the in-place update is modelled by that write-back.
- Dates:
  - Timestamps are integers (milliseconds).
  - Parsing `updated_at` and the other date strings is not modelled.
  - A NaN time value in the sort is not modelled. The seed's `new Date('')` values are represented as `InvalidDate` and never sorted.
- ProjetsService.ParseGithubRepo: strings are sequences of code points. JavaScript's UTF-16 code units and Unicode case folding are not modelled: the case-insensitive match folds ASCII letters only, which is all the pattern `github.com/` contains.
- ProjetsService.FindById: ids are integers. NaN or fractional ids are not modelled.
- `console.error` logging is not modelled.
- ProjetsService.ProjetService.constructor: the source calls `initializeProjects()` without `await`. Right after construction, only the first linked project has started hydrating: its loading flags are true and its fields are not yet set. Every later project is still unhydrated, and `getProjetById` returns those states. The contract describes only the state once start-up has finished. The intermediate states are not modelled.
- ProjetsService.ProjetService.GetProjetById: the source returns the shared object that `fetchRepoFiles` later changes in place, so a caller that looked a project up before hydration finished sees the later updates. The model returns a value snapshot and does not capture this aliasing.
- The template that indexes the display names `nomEtat` is not part of this model.
- The contribution chart, the project and app components, the routes and the build scripts are not part of this model.
- GitService.GithubPayload and GitService.GitlabPayload carry only the fields the normalisers read. Native ids are non-negative integers, rendered in decimal.
- JsText.Decimal: native ids are taken as integers below 2^53, where `JSON.parse` reads them exactly and `${id}` prints plain digits. Rounding of larger ids, and the exponent form `${n}` uses from 1e21 on, are not modelled: the model prints every natural as plain digits.
