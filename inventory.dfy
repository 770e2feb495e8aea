/**
 * The inventory of one registry (repository -> tag -> fingerprint), the
 * answers a registry gives to the three queries, and the inventory that
 * `populate_image_details` leaves behind when every query succeeds.
 */
module Inventory {
  import opened Wrappers

  /** Image id and creation time (Unix seconds) of a tag's newest history entry. */
  datatype Fingerprint = Fingerprint(id: string, created: int)

  type Tags = map<string, Fingerprint>
  type Catalog = map<string, Tags>

  /**
   * A registry's answers: the repository listing, each repository's tag
   * listing and each (repository, tag)'s fingerprint.  `None`, or a key that
   * is missing, is a query answered with a status other than 200.
   */
  datatype Registry = Registry(
    repositories: Option<seq<string>>,
    tagLists: map<string, seq<string>>,
    manifests: map<(string, string), Fingerprint>)

  function Elems<T>(s: seq<T>): set<T> {
    set x | x in s
  }

  /** The tags held for `name`, none when the repository is unknown. */
  function TagsOf(images: Catalog, name: string): Tags {
    if name in images then images[name] else map[]
  }

  /** The tag listing of `name` and the manifest of each listed tag are answered. */
  predicate RepoAnswered(reg: Registry, name: string) {
    name in reg.tagLists && forall tag | tag in reg.tagLists[name] :: (name, tag) in reg.manifests
  }

  predicate AnswersAll(reg: Registry, repos: seq<string>) {
    forall name | name in repos :: RepoAnswered(reg, name)
  }

  /** Every query a population run makes is answered. */
  predicate Answers(reg: Registry) {
    reg.repositories.Some? && AnswersAll(reg, reg.repositories.value)
  }

  /**
   * The tags of `name` after its listed tags were (re)fetched: every listed
   * tag holds its fetched fingerprint, every other tag is kept.
   */
  function RefreshedTags(tags: Tags, name: string, listed: seq<string>, manifests: map<(string, string), Fingerprint>): (r: Tags)
    requires forall tag | tag in listed :: (name, tag) in manifests
    ensures r.Keys == tags.Keys + Elems(listed)
    ensures forall tag | tag in listed :: r[tag] == manifests[(name, tag)]
    ensures forall tag | tag in tags && tag !in listed :: r[tag] == tags[tag]
  {
    map tag | tag in tags.Keys + Elems(listed) :: if tag in listed then manifests[(name, tag)] else tags[tag]
  }

  /**
   * The inventory after the repositories `repos` were (re)fetched from `reg`:
   * every listed repository is present with its listed tags refreshed, and
   * repositories that are not listed are kept as they were.
   */
  function Refreshed(images: Catalog, repos: seq<string>, reg: Registry): (r: Catalog)
    requires AnswersAll(reg, repos)
    ensures r.Keys == images.Keys + Elems(repos)
    ensures forall name | name in repos ::
      r[name].Keys == TagsOf(images, name).Keys + Elems(reg.tagLists[name])
    ensures forall name, tag | name in repos && tag in reg.tagLists[name] ::
      tag in r[name] && r[name][tag] == reg.manifests[(name, tag)]
    ensures forall name, tag | name in repos && tag in TagsOf(images, name) && tag !in reg.tagLists[name] ::
      r[name][tag] == images[name][tag]
    ensures forall name | name in images && name !in repos :: r[name] == images[name]
  {
    map name | name in images.Keys + Elems(repos) ::
      if name in repos then RefreshedTags(TagsOf(images, name), name, reg.tagLists[name], reg.manifests)
      else images[name]
  }

  /** Refreshing is idempotent at the level of one repository's tags. */
  lemma RefreshedTagsIdempotent(tags: Tags, name: string, listed: seq<string>, manifests: map<(string, string), Fingerprint>)
    requires forall tag | tag in listed :: (name, tag) in manifests
    ensures RefreshedTags(RefreshedTags(tags, name, listed, manifests), name, listed, manifests)
         == RefreshedTags(tags, name, listed, manifests)
  {
  }

  /** A second run against unchanged registry data leaves the inventory as the first left it. */
  lemma RefreshedIdempotent(images: Catalog, repos: seq<string>, reg: Registry)
    requires AnswersAll(reg, repos)
    ensures Refreshed(Refreshed(images, repos, reg), repos, reg) == Refreshed(images, repos, reg)
  {
    var once := Refreshed(images, repos, reg);
    forall name | name in repos
      ensures RefreshedTags(TagsOf(once, name), name, reg.tagLists[name], reg.manifests) == once[name]
    {
      RefreshedTagsIdempotent(TagsOf(images, name), name, reg.tagLists[name], reg.manifests);
    }
  }

  /** Fetching one more repository, on top of the ones already fetched. */
  lemma RefreshedSnoc(images: Catalog, repos: seq<string>, name: string, reg: Registry)
    requires AnswersAll(reg, repos) && RepoAnswered(reg, name)
    ensures AnswersAll(reg, repos + [name])
    ensures var before := Refreshed(images, repos, reg);
      Refreshed(images, repos + [name], reg)
        == before[name := RefreshedTags(TagsOf(before, name), name, reg.tagLists[name], reg.manifests)]
  {
    var before := Refreshed(images, repos, reg);
    var after := Refreshed(images, repos + [name], reg);
    var step := before[name := RefreshedTags(TagsOf(before, name), name, reg.tagLists[name], reg.manifests)];
    assert after.Keys == step.Keys;
    forall n | n in after.Keys ensures after[n] == step[n] {
      RefreshedSnocAt(images, repos, name, reg, n);
    }
  }

  lemma RefreshedSnocAt(images: Catalog, repos: seq<string>, name: string, reg: Registry, n: string)
    requires AnswersAll(reg, repos) && RepoAnswered(reg, name) && AnswersAll(reg, repos + [name])
    requires n in images || n in repos + [name]
    ensures var before := Refreshed(images, repos, reg);
      Refreshed(images, repos + [name], reg)[n]
        == before[name := RefreshedTags(TagsOf(before, name), name, reg.tagLists[name], reg.manifests)][n]
  {
  }

  /** Fetching one more tag of a repository. */
  lemma RefreshedTagsSnoc(tags: Tags, name: string, listed: seq<string>, tag: string, manifests: map<(string, string), Fingerprint>)
    requires forall t | t in listed + [tag] :: (name, t) in manifests
    ensures forall t | t in listed :: (name, t) in manifests
    ensures RefreshedTags(tags, name, listed + [tag], manifests)
         == RefreshedTags(tags, name, listed, manifests)[tag := manifests[(name, tag)]]
  {
  }
}
