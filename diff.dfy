/**
 * The comparison of a local inventory against another one: which tags the
 * local side wins (it holds them and its copy is at least as new) and which
 * it loses.  The comparison is asymmetric on purpose: equal creation times
 * are a win for the local side.
 */
module Diff {
  import opened Inventory

  type TagSets = map<string, set<string>>

  /** The tags recorded for `name`, none when it has no entry. */
  function TagSet(m: TagSets, name: string): set<string> {
    if name in m then m[name] else {}
  }

  /** The deciding rule for a local tag of a repository both sides hold. */
  predicate LocalWins(local: Tags, remote: Tags, tag: string)
    requires tag in local
  {
    tag !in remote || local[tag].created >= remote[tag].created
  }

  /** The local tags of a shared repository that are won. */
  function Won(local: Tags, remote: Tags): set<string> {
    set tag | tag in local && LocalWins(local, remote, tag)
  }

  /** The local tags of a shared repository that are lost. */
  function Lost(local: Tags, remote: Tags): set<string> {
    set tag | tag in local && !LocalWins(local, remote, tag)
  }

  /**
   * The `we_win` result: each repository only the local side holds, with all
   * its tags, and each shared repository with at least one won tag, with those.
   */
  function Wins(local: Catalog, other: Catalog): TagSets {
    map name | name in local && (name !in other || Won(local[name], other[name]) != {}) ::
      if name in other then Won(local[name], other[name]) else local[name].Keys
  }

  /**
   * The `we_lose` result: each shared repository with at least one lost tag,
   * with those, and each repository only the other side holds, with all its tags.
   */
  function Loses(local: Catalog, other: Catalog): TagSets {
    map name | name in other && (name !in local || Lost(local[name], other[name]) != {}) ::
      if name in local then Lost(local[name], other[name]) else other[name].Keys
  }

  /** Wins, counting only the local repositories in `done`. */
  function WinsAmong(local: Catalog, other: Catalog, done: set<string>): TagSets {
    map name | name in local && name in done && (name !in other || Won(local[name], other[name]) != {}) ::
      if name in other then Won(local[name], other[name]) else local[name].Keys
  }

  /** Loses, counting only the repositories of `other` in `done`. */
  function LosesAmong(local: Catalog, other: Catalog, done: set<string>): TagSets {
    map name | name in other && name in done && (name !in local || Lost(local[name], other[name]) != {}) ::
      if name in local then Lost(local[name], other[name]) else other[name].Keys
  }

  lemma WinsAmongAll(local: Catalog, other: Catalog, done: set<string>)
    requires local.Keys <= done
    ensures WinsAmong(local, other, done) == Wins(local, other)
  {
  }

  lemma LosesAmongAll(local: Catalog, other: Catalog, done: set<string>)
    requires other.Keys <= done
    ensures LosesAmong(local, other, done) == Loses(local, other)
  {
  }

  /** How Wins grows when one more local repository is compared. */
  lemma WinsAmongStep(local: Catalog, other: Catalog, done: set<string>, name: string)
    requires name in local
    ensures WinsAmong(local, other, done + {name}) ==
      if name !in other then WinsAmong(local, other, done)[name := local[name].Keys]
      else if Won(local[name], other[name]) == {} then WinsAmong(local, other, done)
      else WinsAmong(local, other, done)[name := Won(local[name], other[name])]
  {
  }

  /** How Loses grows when one more repository is compared. */
  lemma LosesAmongStep(local: Catalog, other: Catalog, done: set<string>, name: string)
    ensures LosesAmong(local, other, done + {name}) ==
      if name !in other then LosesAmong(local, other, done)
      else if name !in local then LosesAmong(local, other, done)[name := other[name].Keys]
      else if Lost(local[name], other[name]) == {} then LosesAmong(local, other, done)
      else LosesAmong(local, other, done)[name := Lost(local[name], other[name])]
  {
  }

  /** A repository only the local side holds is won with all its tags, even none. */
  lemma LocalOnlyRepoWinsAll(local: Catalog, other: Catalog, name: string)
    requires name in local && name !in other
    ensures name in Wins(local, other) && Wins(local, other)[name] == local[name].Keys
    ensures name !in Loses(local, other)
  {
  }

  /** A repository only the other side holds is lost with all its tags, even none. */
  lemma RemoteOnlyRepoLosesAll(local: Catalog, other: Catalog, name: string)
    requires name !in local && name in other
    ensures name in Loses(local, other) && Loses(local, other)[name] == other[name].Keys
    ensures name !in Wins(local, other)
  {
  }

  /**
   * A local tag of a shared repository is won exactly when the other side
   * lacks it or holds a copy created no later, and lost otherwise.
   */
  lemma SharedTagRule(local: Catalog, other: Catalog, name: string, tag: string)
    requires name in local && name in other && tag in local[name]
    ensures tag in TagSet(Wins(local, other), name)
        <==> (tag !in other[name] || local[name][tag].created >= other[name][tag].created)
    ensures tag in TagSet(Loses(local, other), name)
        <==> (tag in other[name] && local[name][tag].created < other[name][tag].created)
  {
  }

  /** A tag only the other side holds, in a repository both hold, is in neither result. */
  lemma RemoteOnlyTagUnclaimed(local: Catalog, other: Catalog, name: string, tag: string)
    requires name in local && name in other
    requires tag !in local[name] && tag in other[name]
    ensures tag !in TagSet(Wins(local, other), name)
    ensures tag !in TagSet(Loses(local, other), name)
  {
  }

  /** No (repository, tag) pair is both won and lost. */
  lemma WinsLosesDisjoint(local: Catalog, other: Catalog, name: string, tag: string)
    ensures !(tag in TagSet(Wins(local, other), name) && tag in TagSet(Loses(local, other), name))
  {
  }

  /** Won pairs are held locally; lost pairs are held by the other side. */
  lemma ResultsComeFromInputs(local: Catalog, other: Catalog, name: string, tag: string)
    ensures tag in TagSet(Wins(local, other), name) ==> tag in TagsOf(local, name)
    ensures tag in TagSet(Loses(local, other), name) ==> tag in TagsOf(other, name)
  {
  }

  /** A shared repository has a result entry only when that entry holds a tag. */
  lemma SharedEntriesNonEmpty(local: Catalog, other: Catalog, name: string)
    requires name in local && name in other
    ensures name in Wins(local, other) ==> Wins(local, other)[name] != {}
    ensures name in Loses(local, other) ==> Loses(local, other)[name] != {}
  {
  }

  /**
   * Equal creation times are a win for whichever side is local, so swapping
   * the arguments makes the same tag a win for the other side too.
   */
  lemma TieWinsForBothSides(a: Catalog, b: Catalog, name: string, tag: string)
    requires name in a && name in b && tag in a[name] && tag in b[name]
    requires a[name][tag].created == b[name][tag].created
    ensures tag in TagSet(Wins(a, b), name) && tag in TagSet(Wins(b, a), name)
  {
  }

  /** Two inventories with the same repositories, tags and creation times. */
  ghost predicate SameTimes(a: Catalog, b: Catalog) {
    a.Keys == b.Keys &&
    forall name | name in a ::
      a[name].Keys == b[name].Keys &&
      forall tag | tag in a[name] :: a[name][tag].created == b[name][tag].created
  }

  /** Image ids play no part in the comparison, on either side. */
  lemma OnlyTimesMatter(a: Catalog, a': Catalog, b: Catalog, b': Catalog)
    requires SameTimes(a, a') && SameTimes(b, b')
    ensures Wins(a, b) == Wins(a', b') && Loses(a, b) == Loses(a', b')
  {
    forall name | name in a && name in b
      ensures Won(a[name], b[name]) == Won(a'[name], b'[name])
      ensures Lost(a[name], b[name]) == Lost(a'[name], b'[name])
    {
      SameTimesSameVerdicts(a[name], a'[name], b[name], b'[name]);
    }
    assert Wins(a, b).Keys == Wins(a', b').Keys;
    assert Loses(a, b).Keys == Loses(a', b').Keys;
  }

  lemma SameTimesSameVerdicts(l: Tags, l': Tags, r: Tags, r': Tags)
    requires l.Keys == l'.Keys && forall tag | tag in l :: l[tag].created == l'[tag].created
    requires r.Keys == r'.Keys && forall tag | tag in r :: r[tag].created == r'[tag].created
    ensures Won(l, r) == Won(l', r') && Lost(l, r) == Lost(l', r')
  {
  }

  /** A newer local tag and a repository only the other side holds. */
  lemma ExampleNewerLocalAndRemoteOnlyRepo()
    ensures var a := map["app" := map["latest" := Fingerprint("x1", 100)]];
      var b := map["app" := map["latest" := Fingerprint("x2", 50)],
                   "db" := map["latest" := Fingerprint("y1", 10)]];
      Wins(a, b) == map["app" := {"latest"}] && Loses(a, b) == map["db" := {"latest"}]
  {
    var a := map["app" := map["latest" := Fingerprint("x1", 100)]];
    var b := map["app" := map["latest" := Fingerprint("x2", 50)],
                 "db" := map["latest" := Fingerprint("y1", 10)]];
    assert Won(a["app"], b["app"]) == {"latest"};
    assert Lost(a["app"], b["app"]) == {};
    assert b.Keys == {"app", "db"} && b["db"].Keys == {"latest"};
    assert Loses(a, b).Keys == {"db"};
  }

  /** One repository both won and lost in: v1 is older locally, v2 only local. */
  lemma ExampleWinAndLoseInOneRepo()
    ensures var a := map["app" := map["v1" := Fingerprint("i", 10), "v2" := Fingerprint("i", 20)]];
      var b := map["app" := map["v1" := Fingerprint("i", 30)]];
      Wins(a, b) == map["app" := {"v2"}] && Loses(a, b) == map["app" := {"v1"}]
  {
    var a := map["app" := map["v1" := Fingerprint("i", 10), "v2" := Fingerprint("i", 20)]];
    var b := map["app" := map["v1" := Fingerprint("i", 30)]];
    assert !LocalWins(a["app"], b["app"], "v1");
    assert LocalWins(a["app"], b["app"], "v2");
    assert Won(a["app"], b["app"]) == {"v2"};
    assert Lost(a["app"], b["app"]) == {"v1"};
  }
}
