# docker_reg inventory model

A Dafny model of the inventory logic of `DockerRegAPI`, the client class of
python-docker-reg. One client instance is bound to one Docker Registry v2
endpoint. It does three things:

- it builds the request URLs for the registry's `/v2` API;
- it fills an in-memory inventory, `images`, by walking the registry's
  repository listing, each repository's tag listing and each tag's
  manifest;
- it compares its inventory against another registry's inventory and
  reports, per repository, the tags this side wins and the tags it loses.

An inventory (`Inventory.Catalog`) maps a repository name to a map from tag
to fingerprint. A fingerprint (`Inventory.Fingerprint`) is an image id and a
creation time in Unix seconds.

Modules:

- `Endpoints` (endpoints.dfy): the base address and the three request URLs.
  Their partner is a decoder, `RouteOf`, that reads a URL back as a
  catalog, tag-list or manifest request. The two are proved inverse.
- `Inventory` (inventory.dfy): the fingerprint and inventory types. It also
  holds `Registry`, which stands for what a registry answers to the three
  queries, and `Refreshed`, which describes the inventory that a successful
  population run leaves behind.
- `Diff` (diff.dfy): `Wins` and `Loses`, the `we_win`/`we_lose` results
  written as closed-form maps. The lemmas beside them state the win/lose
  rule.
- `DockerReg` (api.dfy): the class `RegistryApi`, with the `images` field
  that the source updates in place. `PopulateImageDetails` is the nested
  population loop. Its repository body is `PopulateRepo` and its tag loop
  is `FetchTags`. `DiffImageList` has the two comparison loops, and
  `CompareRepo` is the body of the first one. `GetImageDetails` returns
  `images` (it is `get_image_details`, docker_reg/api.py:70-72).
- `Wrappers` (wrappers.dfy): the `Option` type.

The registry's three HTTP queries become the fields of a `Registry` value:

- `repositories: Option<seq<string>>`. `None` means the catalog request got
  a status other than 200.
- `tagLists: map<string, seq<string>>`. A missing repository means its tag
  request failed.
- `manifests: map<(string, string), Fingerprint>`. A missing pair means its
  manifest request failed.

In the source a failed request raises `IOError`. In the model the method
returns `false` at that point, and `ok == Answers(reg)` says exactly when
that happens.

Two consequences of the code are worth stating:

- A tag that only the other side holds, in a repository both sides hold, is
  in neither result (`Diff.RemoteOnlyTagUnclaimed`). The shared-repository
  loop walks only the local tags (docker_reg/api.py:84), and the second loop
  skips repositories the local side has (docker_reg/api.py:95).
- A listed repository gets its entry before its tags are queried
  (docker_reg/api.py:62-64). So it keeps an entry even when its tag query
  fails (`DockerReg.RegistryApi.PopulateRepo`). `Inventory.Refreshed` gives
  a listed repository an entry even when its tag list is empty.

## Model

| member | source | states |
|---|---|---|
| `DockerReg.RegistryApi.constructor` | docker_reg/api.py:13-19 | The server address is exactly `ServerUrl(url)`, and the inventory starts empty. When no address is given, it is `localhost:5000`. |
| `Endpoints.ServerUrl` | docker_reg/api.py:18 | The base address is `http://` + url + `/v2`. The url can be read back from it: `HostOf(ServerUrl(url)) == Some(url)`. |
| `Endpoints.HostOfSound` | docker_reg/api.py:18 | Every address `HostOf` accepts is the `ServerUrl` of the host it returns, so `ServerUrl` is injective. |
| `Endpoints.CatalogUrl` | docker_reg/api.py:24 | The repository-listing URL is decoded back as the catalog request against the same server. |
| `Endpoints.TagsUrl` | docker_reg/api.py:33 | The tag-listing URL of repository `name` is decoded back as the tag-list request for exactly `name`, including names that contain slashes. |
| `Endpoints.ManifestUrl` | docker_reg/api.py:42 | For a tag without a slash, the manifest URL of (`name`, `tag`) is decoded back as the manifest request for exactly that pair. |
| `Endpoints.RouteOfSound` | docker_reg/api.py:24-42 | Every URL the decoder accepts is exactly the URL the client builds for the decoded request, and a decoded tag never contains a slash. With the three rows above, distinct requests (slash-free tags) use distinct URLs. |
| `Inventory.RefreshedTags` | docker_reg/api.py:65-68 | After a repository's tags are fetched, the tags are the old ones plus the listed ones. Every listed tag holds its fetched fingerprint, and every other tag keeps its value. |
| `Inventory.Refreshed` | docker_reg/api.py:61-68 | After a successful run, every listed repository is a key, and every listed tag of it maps to that (repository, tag)'s fingerprint. Tags that are not listed keep their values, and repositories that are not listed are unchanged. No other keys appear. |
| `Inventory.RefreshedIdempotent` | docker_reg/api.py:59-68 | A second run against unchanged registry data leaves the inventory exactly as the first run left it. |
| `DockerReg.RegistryApi.PopulateImageDetails` | docker_reg/api.py:59-68 | The run succeeds exactly when every query it makes is answered. On success `images` is `Refreshed(old images)`. A failed catalog query leaves `images` unchanged. On any other failure no key is removed, every new key is a listed repository, and no existing repository outside the listing changes. |
| `DockerReg.RegistryApi.PopulateRepo` | docker_reg/api.py:62-68 | One repository: its entry exists afterwards, even when its tag query fails. When the tag query fails, the entry is its old value, or `{}` if it is new, and nothing else changes. It succeeds exactly when its tag listing and every listed manifest are answered, and it then holds the refreshed tags. Other repositories are untouched. |
| `DockerReg.RegistryApi.FetchTags` | docker_reg/api.py:65-68 | The tag loop succeeds exactly when every listed manifest is answered, and it then leaves the repository's tags refreshed. Keys and other repositories never change. |
| `DockerReg.RegistryApi.GetImageDetails` | docker_reg/api.py:70-72 | Returns the current inventory `images`. |
| `DockerReg.RegistryApi.DiffImageList` | docker_reg/api.py:74-98 | The two loops compute exactly `Wins(images, other)` and `Loses(images, other)`, whatever order the maps are walked in. The method modifies nothing, so neither inventory changes. |
| `DockerReg.RegistryApi.CompareRepo` | docker_reg/api.py:79-93 | A local repository missing from `other` is won with all its tags. Otherwise each won tag goes to `we_win[name]` and each lost tag to `we_lose[name]`, and an entry exists only when it got a tag. |
| `Diff.LocalOnlyRepoWinsAll` | docker_reg/api.py:79-81 | A repository only the local side holds is won with its full tag set, even when that set is empty. It is never lost. |
| `Diff.SharedTagRule` | docker_reg/api.py:84-93 | In a shared repository, a local tag is won iff the other side lacks it or the local creation time is `>=` the other side's. It is lost iff the other side holds it with a strictly later creation time. |
| `Diff.RemoteOnlyRepoLosesAll` | docker_reg/api.py:94-97 | A repository only the other side holds is lost with its full tag set, even when that set is empty. It is never won. |
| `Diff.RemoteOnlyTagUnclaimed` | docker_reg/api.py:84-95 | A tag that only the other side holds, in a shared repository, appears in neither result. |
| `Diff.WinsLosesDisjoint` | docker_reg/api.py:78-97 | No (repository, tag) pair is both won and lost. |
| `Diff.ResultsComeFromInputs` | docker_reg/api.py:78-97 | Every won pair is held locally, and every lost pair is held by the other side. |
| `Diff.SharedEntriesNonEmpty` | docker_reg/api.py:87-92 | For a shared repository, a key in either result maps to a non-empty tag set, because the entries are created lazily. |
| `Diff.TieWinsForBothSides` | docker_reg/api.py:85 | Equal creation times are a win for whichever side is local. Swapping the arguments makes the same tag a win on both sides, so the rule is not symmetric. |
| `Diff.OnlyTimesMatter` | docker_reg/api.py:85 | Only the creation time is compared. Inventories that differ only in image ids give the same wins and losses. |
| `Diff.ExampleNewerLocalAndRemoteOnlyRepo` | docker_reg/api.py:78-98 | Local `app:latest` at time 100 against remote `app:latest` at 50 plus `db:latest`: wins are `{app: {latest}}` and losses are `{db: {latest}}`. |
| `Diff.ExampleWinAndLoseInOneRepo` | docker_reg/api.py:78-98 | Local `app` {v1 at 10, v2 at 20} against remote `app` {v1 at 30}: wins are `{app: {v2}}` and losses are `{app: {v1}}`, both in the same repository. |

## Left out

- HTTP transport is not modelled: `requests.get`, the status-code check, the printed message, the raised `IOError` and the `.json()` decoding (docker_reg/api.py:24-47). Each query is an entry of the `Registry` value, present or absent.
- The error text is not modelled. It names `<server>/_catalog` even for tag and manifest requests (docker_reg/api.py:35, 44), so it does not name the URL that actually failed.
- The unused `tag="latest"` parameter of `get_tags` is not modelled, since it has no effect. The `tag="latest"` default of `get_detail` (docker_reg/api.py:40) is kept as the default of `Endpoints.ManifestUrl`.
- `extract_fingerprint` (docker_reg/api.py:49-57) is not modelled. It relies on JSON decoding of `v1Compatibility`, `dateutil` parsing and the platform's `strftime('%s')`. A fingerprint here is taken as an opaque (id, integer time) pair.
- The `(None, None)` fingerprint (docker_reg/api.py:57) and Python 2's ordering of `None` against integers are not modelled either.
- PopulateImageDetails: after a failed query the contract only says that no key is removed and that repositories outside the listing are unchanged. It does not describe the partly updated state. In particular the model does not store the empty `{}` placeholder that the source leaves for a new tag whose manifest fetch fails (docker_reg/api.py:66-68). The failure ends the program anyway.
- PopulateRepo: after a failed manifest query the contract only says that the repository's entry exists, and that the keys are the old keys plus `name`, with other repositories unchanged. The partly updated tags are not described.
- FetchTags: the same applies. After a failed manifest query the contract only says that the keys and the other repositories are unchanged.
- Aliasing is not modelled. `get_image_details` returns the live dictionary, while the model passes inventories as values into `DiffImageList`. Nothing mutates the returned dictionary afterwards.
- The calling script (test.py) is not part of this model. It covers option parsing, configuration files, logging, the `DOCKER_HOST` variable and the printed `echo` lines. The `update_remote_v2_reg` call it makes is not defined in the client.
- Packaging metadata (setup.py) is not modelled.
