/**
 * `DockerRegAPI`: a client bound to one registry, holding the inventory it
 * fetched (`images`) and comparing it against another registry's inventory.
 */
module DockerReg {
  import opened Wrappers
  import opened Endpoints
  import opened Inventory
  import opened Diff

  class RegistryApi {
    /** The `/v2` base address all requests are made against. */
    const server: string
    /** repository -> tag -> fingerprint, filled by PopulateImageDetails. */
    var images: Catalog

    constructor (url: string := DefaultUrl)
      ensures server == ServerUrl(url) && images == map[]
    {
      server := ServerUrl(url);
      images := map[];
    }

    /** The inventory fetched so far. */
    function GetImageDetails(): (r: Catalog)
      reads this
      ensures r == images
    {
      images
    }

    /**
     * Lists the repositories, then each repository's tags, then fetches the
     * fingerprint of every listed tag, updating `images` as it goes.  Returns
     * false at the first query the registry does not answer.
     */
    method PopulateImageDetails(reg: Registry) returns (ok: bool)
      modifies this
      ensures ok == Answers(reg)
      ensures ok ==> images == Refreshed(old(images), reg.repositories.value, reg)
      ensures reg.repositories.None? ==> images == old(images)
      ensures reg.repositories.Some? ==> images.Keys <= old(images).Keys + Elems(reg.repositories.value)
      ensures old(images).Keys <= images.Keys
      ensures forall name | name in old(images) && !(reg.repositories.Some? && name in reg.repositories.value) ::
        images[name] == old(images)[name]
    {
      if reg.repositories.None? {
        return false;
      }
      var repos := reg.repositories.value;
      var i := 0;
      while i < |repos|
        invariant 0 <= i <= |repos|
        invariant AnswersAll(reg, repos[..i])
        invariant images == Refreshed(old(images), repos[..i], reg)
        invariant images.Keys <= old(images).Keys + Elems(repos)
      {
        var name := repos[i];
        ok := PopulateRepo(name, reg);
        if !ok {
          assert name in repos;
          return false;
        }
        RefreshedSnoc(old(images), repos[..i], name, reg);
        assert repos[..i + 1] == repos[..i] + [name];
        i := i + 1;
      }
      assert repos[..i] == repos;
      return true;
    }

    /**
     * One repository of PopulateImageDetails: makes sure `name` has an entry,
     * lists its tags and stores the fingerprint of each listed tag, in order,
     * stopping at the first query the registry does not answer.
     */
    method PopulateRepo(name: string, reg: Registry) returns (ok: bool)
      modifies this
      ensures ok == RepoAnswered(reg, name)
      ensures ok ==> images == old(images)[name := RefreshedTags(TagsOf(old(images), name), name, reg.tagLists[name], reg.manifests)]
      ensures name !in reg.tagLists ==> images == old(images)[name := TagsOf(old(images), name)]
      ensures images.Keys == old(images).Keys + {name}
      ensures forall n | n in old(images) && n != name :: images[n] == old(images)[n]
    {
      if name !in images {
        images := images[name := map[]];
      }
      if name !in reg.tagLists {
        return false;
      }
      ok := FetchTags(name, reg.tagLists[name], reg.manifests);
    }

    /**
     * The tag loop of PopulateRepo: stores the fingerprint of each listed tag
     * of `name`, in order, and stops at the first manifest the registry does
     * not answer.
     */
    method FetchTags(name: string, tags: seq<string>, manifests: map<(string, string), Fingerprint>)
      returns (ok: bool)
      requires name in images
      modifies this
      ensures ok == forall t | t in tags :: (name, t) in manifests
      ensures ok ==> images == old(images)[name := RefreshedTags(old(images)[name], name, tags, manifests)]
      ensures images.Keys == old(images).Keys
      ensures forall n | n in images && n != name :: images[n] == old(images)[n]
    {
      var j := 0;
      assert RefreshedTags(images[name], name, tags[..0], manifests) == images[name];
      while j < |tags|
        invariant 0 <= j <= |tags|
        invariant forall t | t in tags[..j] :: (name, t) in manifests
        invariant images == old(images)[name := RefreshedTags(old(images)[name], name, tags[..j], manifests)]
      {
        var tag := tags[j];
        // The source first stores an empty placeholder for a new tag and
        // overwrites it with the fingerprint once that is fetched.
        if (name, tag) !in manifests {
          return false;
        }
        RefreshedTagsSnoc(old(images)[name], name, tags[..j], tag, manifests);
        assert tags[..j + 1] == tags[..j] + [tag];
        images := images[name := images[name][tag := manifests[(name, tag)]]];
        j := j + 1;
      }
      assert tags[..j] == tags;
      return true;
    }

    /**
     * Compares the own inventory against `other`: which tags this side wins
     * and which it loses.  Neither inventory is changed.
     */
    method DiffImageList(other: Catalog) returns (weWin: TagSets, weLose: TagSets)
      ensures weWin == Wins(images, other) && weLose == Loses(images, other)
    {
      weWin, weLose := map[], map[];
      ghost var done: set<string> := {};
      var names := images.Keys;
      while names != {}
        invariant names == images.Keys - done && done <= images.Keys
        invariant weWin == WinsAmong(images, other, done)
        invariant weLose == LosesAmong(images, other, done)
        decreases names
      {
        var name :| name in names;
        WinsAmongStep(images, other, done, name);
        LosesAmongStep(images, other, done, name);
        weWin, weLose := CompareRepo(name, other, weWin, weLose);
        done := done + {name};
        names := names - {name};
      }
      WinsAmongAll(images, other, done);
      var others := other.Keys;
      while others != {}
        invariant others <= other.Keys && done == images.Keys + (other.Keys - others)
        invariant weLose == LosesAmong(images, other, done)
        decreases others
      {
        var name :| name in others;
        LosesAmongStep(images, other, done, name);
        if name !in images {
          weLose := weLose[name := other[name].Keys];
        }
        done := done + {name};
        others := others - {name};
      }
      LosesAmongAll(images, other, done);
    }

    /**
     * The body of DiffImageList's first loop, for the local repository
     * `name`: all its tags are won when `other` lacks it; otherwise each won
     * tag is added to `weWin[name]` and each lost tag to `weLose[name]`, an
     * entry being created only when it receives a tag.
     */
    method CompareRepo(name: string, other: Catalog, win0: TagSets, lose0: TagSets)
      returns (weWin: TagSets, weLose: TagSets)
      requires name in images && name !in win0 && name !in lose0
      ensures name !in other ==> weWin == win0[name := images[name].Keys] && weLose == lose0
      ensures name in other ==>
        var (won, lost) := (Won(images[name], other[name]), Lost(images[name], other[name]));
        && weWin == (if won == {} then win0 else win0[name := won])
        && weLose == (if lost == {} then lose0 else lose0[name := lost])
    {
      var tags := images[name];
      if name !in other {
        return win0[name := tags.Keys], lose0;
      }
      var remote := other[name];
      weWin, weLose := win0, lose0;
      var rest := tags.Keys;
      while rest != {}
        invariant rest <= tags.Keys
        invariant weWin == if Won(tags, remote) - rest == {} then win0
                           else win0[name := Won(tags, remote) - rest]
        invariant weLose == if Lost(tags, remote) - rest == {} then lose0
                            else lose0[name := Lost(tags, remote) - rest]
        decreases rest
      {
        var tag :| tag in rest;
        assert Won(tags, remote) - (rest - {tag})
            == if LocalWins(tags, remote, tag) then (Won(tags, remote) - rest) + {tag} else Won(tags, remote) - rest;
        assert Lost(tags, remote) - (rest - {tag})
            == if LocalWins(tags, remote, tag) then Lost(tags, remote) - rest else (Lost(tags, remote) - rest) + {tag};
        if tag !in remote || tags[tag].created >= remote[tag].created {
          if name !in weWin {
            weWin := weWin[name := {}];
          }
          weWin := weWin[name := weWin[name] + {tag}];
        } else {
          if name !in weLose {
            weLose := weLose[name := {}];
          }
          weLose := weLose[name := weLose[name] + {tag}];
        }
        rest := rest - {tag};
      }
      assert Won(tags, remote) - rest == Won(tags, remote);
      assert Lost(tags, remote) - rest == Lost(tags, remote);
    }
  }
}
