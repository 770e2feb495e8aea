/**
 * The request URLs of `DockerRegAPI`: the `/v2` base address built by the
 * constructor and the three paths it asks a registry for.  Each URL function
 * is paired with a decoder, `RouteOf`, and the two are proved inverse.
 */
module Endpoints {
  import opened Wrappers

  /** The registry address used when the caller gives none. */
  const DefaultUrl: string := "localhost:5000"

  /** The three requests of the client: repository listing, tag listing, manifest fetch. */
  datatype Route = Catalog | TagList(name: string) | Manifest(name: string, tag: string)

  /** A Docker tag never contains a slash; repository names may. */
  predicate WellFormed(route: Route) {
    route.Manifest? ==> '/' !in route.tag
  }

  /** The base address of the API for a `host:port` address given without protocol. */
  function ServerUrl(url: string): (server: string)
    ensures HostOf(server) == Some(url)
  {
    var server := "http://" + url + "/v2";
    assert server[..7] == "http://" && server[|server| - 3..] == "/v2";
    assert server[7..|server| - 3] == url;
    server
  }

  /** Recovers the `host:port` part of a base address, if it has the shape ServerUrl gives. */
  function HostOf(server: string): Option<string> {
    if |server| >= 10 && server[..7] == "http://" && server[|server| - 3..] == "/v2"
    then Some(server[7..|server| - 3])
    else None
  }

  lemma HostOfSound(server: string, url: string)
    requires HostOf(server) == Some(url)
    ensures ServerUrl(url) == server
  {
  }

  function CatalogUrl(server: string): (r: string)
    ensures RouteOf(server, r) == Some(Catalog)
  {
    RouteOfAppend(server, "/_catalog");
    server + "/_catalog"
  }

  function TagsUrl(server: string, name: string): (r: string)
    ensures RouteOf(server, r) == Some(TagList(name))
  {
    TagListPathDecodes(name);
    RouteOfAppend(server, "/" + name + "/tags/list");
    server + ("/" + name + "/tags/list")
  }

  function ManifestUrl(server: string, name: string, tag: string := "latest"): (r: string)
    ensures '/' !in tag ==> RouteOf(server, r) == Some(Manifest(name, tag))
  {
    ManifestPathDecodes(name, tag);
    RouteOfAppend(server, "/" + name + "/manifests/" + tag);
    server + ("/" + name + "/manifests/" + tag)
  }

  /** The URL requested for a route. */
  function Url(server: string, route: Route): string {
    match route
    case Catalog => CatalogUrl(server)
    case TagList(name) => TagsUrl(server, name)
    case Manifest(name, tag) => ManifestUrl(server, name, tag)
  }

  /**
   * Reads a URL as one of the three requests against `server`: the catalog
   * path, then a tag listing, then a manifest whose tag is the last path segment.
   */
  function RouteOf(server: string, url: string): Option<Route> {
    if server <= url then PathRoute(url[|server|..]) else None
  }

  function PathRoute(path: string): Option<Route> {
    if path == "/_catalog" then Some(Catalog)
    else if IsTagListPath(path) then Some(TagList(path[1..|path| - 10]))
    else ManifestRoute(path)
  }

  predicate IsTagListPath(path: string) {
    |path| >= 11 && path[0] == '/' && path[|path| - 10..] == "/tags/list"
  }

  function ManifestRoute(path: string): Option<Route> {
    var tag := TrailingSegment(path);
    var head := path[..|path| - |tag|];
    if |head| >= 12 && head[0] == '/' && head[|head| - 11..] == "/manifests/"
    then Some(Manifest(head[1..|head| - 11], tag))
    else None
  }

  /** The part of `s` after its last slash (all of `s` when it has none). */
  function TrailingSegment(s: string): (t: string)
    ensures |t| <= |s| && t == s[|s| - |t|..]
    ensures '/' !in t
    ensures |t| < |s| ==> s[|s| - |t| - 1] == '/'
  {
    if s == [] || s[|s| - 1] == '/' then []
    else TrailingSegment(s[..|s| - 1]) + [s[|s| - 1]]
  }

  lemma RouteOfAppend(server: string, path: string)
    ensures RouteOf(server, server + path) == PathRoute(path)
  {
  }

  lemma {:induction false} TrailingSegmentAfterSlash(p: string, t: string)
    requires '/' !in t
    ensures TrailingSegment(p + "/" + t) == t
  {
    var s := p + "/" + t;
    if t != [] {
      var init := t[..|t| - 1];
      assert s[..|s| - 1] == p + "/" + init;
      assert s[|s| - 1] == t[|t| - 1];
      TrailingSegmentAfterSlash(p, init);
      assert init + [t[|t| - 1]] == t;
    }
  }

  lemma TagListPathDecodes(name: string)
    ensures PathRoute("/" + name + "/tags/list") == Some(TagList(name))
  {
  }

  lemma ManifestPathDecodes(name: string, tag: string)
    ensures '/' !in tag ==> PathRoute("/" + name + "/manifests/" + tag) == Some(Manifest(name, tag))
  {
    if '/' !in tag {
      var path := "/" + name + "/manifests/" + tag;
      assert path != "/_catalog" by { assert |path| >= 12; }
      assert !IsTagListPath(path) by {
        // The last ten characters cannot read "/tags/list": compare one position.
        var k := if |tag| >= 10 then 0 else if |tag| == 9 then 5 else if |tag| == 4 then 0 else 9 - |tag|;
        assert path[|path| - 10 + k] != "/tags/list"[k];
        assert path[|path| - 10..][k] == path[|path| - 10 + k];
      }
      assert ManifestRoute(path) == Some(Manifest(name, tag)) by {
        assert path == ("/" + name + "/manifests") + "/" + tag;
        TrailingSegmentAfterSlash("/" + name + "/manifests", tag);
        var head := path[..|path| - |tag|];
        assert head == "/" + name + "/manifests/";
        assert head[|head| - 11..] == "/manifests/";
        assert head[1..|head| - 11] == name;
      }
    }
  }

  /** Distinct well-formed routes are requested at distinct URLs. */
  lemma UrlRoundTrip(server: string, route: Route)
    requires WellFormed(route)
    ensures RouteOf(server, Url(server, route)) == Some(route)
  {
  }

  /** Whatever the decoder accepts is the URL of a well-formed route. */
  lemma RouteOfSound(server: string, url: string, route: Route)
    requires RouteOf(server, url) == Some(route)
    ensures WellFormed(route) && Url(server, route) == url
  {
    var path := url[|server|..];
    assert url == server + path;
    match route
    case Catalog =>
    case TagList(name) =>
      assert path == "/" + name + "/tags/list" by {
        assert path == path[..1] + path[1..|path| - 10] + path[|path| - 10..];
      }
    case Manifest(name, tag) =>
      assert '/' !in tag && path == "/" + name + "/manifests/" + tag by {
        ManifestRouteSound(path, name, tag);
      }
  }

  lemma ManifestRouteSound(path: string, name: string, tag: string)
    requires ManifestRoute(path) == Some(Manifest(name, tag))
    ensures '/' !in tag && path == "/" + name + "/manifests/" + tag
  {
  }
}
