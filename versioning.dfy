/**
 * The API-versioning example: choosing a version from request headers,
 * the response shape each version gets, and the hybrid scheme in which
 * routers mounted under URL prefixes stamp their version on the request
 * and on the `API-Version` response header. The product list these
 * handlers read is a parameter.
 */
module Versioning {
  import opened Optional
  import opened Catalog

  const DefaultVersion: string := "v1"

  // ---------------------------------------------------------------------
  // Header versioning
  // ---------------------------------------------------------------------

  /** The first header with a non-empty value, as a chain of `||` picks it. */
  function FirstPresent(headers: seq<Option<string>>): (r: Option<string>)
    ensures r.Some? ==> r.value != "" && r in headers
    ensures r.Some? ==> exists i :: (0 <= i < |headers| && headers[i] == r &&
      (forall k :: 0 <= k < i ==> headers[k].None? || headers[k].value == ""))
    ensures r.None? ==> forall k :: 0 <= k < |headers| ==> headers[k].None? || headers[k].value == ""
    decreases |headers|
  {
    if headers == [] then None
    else if headers[0].Some? && headers[0].value != "" then headers[0]
    else FirstPresent(headers[1..])
  }

  /** `req.headers['api-version'] || req.headers['accept-version'] || 'v1'`. */
  function ResolveVersion(apiVersion: Option<string>, acceptVersion: Option<string>): (r: string)
    ensures r != ""
    ensures r == DefaultVersion || Some(r) == apiVersion || Some(r) == acceptVersion
  {
    if apiVersion.Some? && apiVersion.value != "" then apiVersion.value
    else if acceptVersion.Some? && acceptVersion.value != "" then acceptVersion.value
    else DefaultVersion
  }

  /**
   * The resolved version is never empty, and it is the first non-empty
   * header of the two, in that order, or `v1` when neither has one.
   */
  lemma ResolveVersionPrecedence(apiVersion: Option<string>, acceptVersion: Option<string>)
    ensures ResolveVersion(apiVersion, acceptVersion) != ""
    ensures ResolveVersion(apiVersion, acceptVersion) == FirstPresent([apiVersion, acceptVersion]).GetOr(DefaultVersion)
  {
    var hs := [apiVersion, acceptVersion];
    assert hs[1..] == [acceptVersion];
    assert hs[1..][1..] == [];
  }

  // ---------------------------------------------------------------------
  // Response shapes
  // ---------------------------------------------------------------------

  /** One entry of the v1 listing: `{ id, nombre, precio }`. */
  datatype Summary = Summary(id: int, nombre: string, precio: real)

  /** `productos.map(p => ({ id: p.id, nombre: p.nombre, precio: p.precio }))`. */
  function ProjectV1(ps: seq<Product>): (r: seq<Summary>)
    ensures |r| == |ps|
    ensures forall k :: 0 <= k < |ps| ==>
      r[k].id == ps[k].id && r[k].nombre == ps[k].nombre && r[k].precio == ps[k].precio
    decreases |ps|
  {
    if ps == [] then []
    else [Summary(ps[0].id, ps[0].nombre, ps[0].precio)] + ProjectV1(ps[1..])
  }

  /** The projection works element by element: it distributes over concatenation. */
  lemma {:induction false} ProjectV1Append(a: seq<Product>, b: seq<Product>)
    ensures ProjectV1(a + b) == ProjectV1(a) + ProjectV1(b)
    decreases |a|
  {
    if a == [] {
      assert a + b == b;
    } else {
      assert (a + b)[1..] == a[1..] + b;
      ProjectV1Append(a[1..], b);
    }
  }

  /** The bodies `getProductos` answers with, one per version it knows. */
  datatype Listing =
    | V1Listing(productos: seq<Summary>)
    | V2Listing(data: seq<Product>, total: int, timestamp: Timestamp)
    | V3Listing(success: bool, data: seq<Product>, page: int, limit: int, total: int,
                self: string, next: string)

  /** The `version` field of the body. */
  function ListingVersion(l: Listing): string {
    match l
    case V1Listing(_) => "v1"
    case V2Listing(_, _, _) => "v2"
    case V3Listing(_, _, _, _, _, _, _) => "v3"
  }

  /** `getProductos`: the `switch` on `req.apiVersion`, with v1 as the default branch. */
  function GetProductos(version: string, productos: seq<Product>, now: Timestamp): (r: Listing)
    ensures r.V2Listing? <==> version == "v2"
    ensures r.V3Listing? <==> version == "v3"
    ensures r.V1Listing? ==> r.productos == ProjectV1(productos)
    ensures r.V2Listing? ==> r.data == productos && r.total == |productos| && r.timestamp == now
    ensures r.V3Listing? ==>
      && r.success && r.data == productos && r.total == |productos|
      && r.page == 1 && r.limit == 10
      && r.self == "/api/productos" && r.next == "/api/productos?page=2"
  {
    match version
    case "v2" => V2Listing(productos, |productos|, now)
    case "v3" => V3Listing(true, productos, 1, 10, |productos|, "/api/productos", "/api/productos?page=2")
    case _ => V1Listing(ProjectV1(productos))
  }

  /**
   * The body names the requested version exactly when that version is
   * known; any other string, including an unknown one, is answered as v1.
   */
  lemma UnknownVersionsGetV1(version: string, productos: seq<Product>, now: Timestamp)
    ensures ListingVersion(GetProductos(version, productos, now)) ==
      if version == "v2" || version == "v3" then version else "v1"
    ensures version != "v2" && version != "v3" ==>
      GetProductos(version, productos, now) == V1Listing(ProjectV1(productos))
  {
  }

  /** A request without version headers gets the v1 listing. */
  lemma NoHeadersGetV1(productos: seq<Product>, now: Timestamp)
    ensures GetProductos(ResolveVersion(None, None), productos, now) == V1Listing(ProjectV1(productos))
  {
  }

  // ---------------------------------------------------------------------
  // URL versioning
  // ---------------------------------------------------------------------

  /** `GET /api/v1/productos` of the URL-versioned app. */
  function UrlV1Productos(productos: seq<Product>): Listing {
    V1Listing(ProjectV1(productos))
  }

  /** `GET /api/v2/productos` of the URL-versioned app. */
  function UrlV2Productos(productos: seq<Product>, now: Timestamp): Listing {
    V2Listing(productos, |productos|, now)
  }

  /** The URL-versioned routes answer exactly what header dispatch answers for the same version. */
  lemma UrlAndHeaderVersioningAgree(productos: seq<Product>, now: Timestamp)
    ensures UrlV1Productos(productos) == GetProductos("v1", productos, now)
    ensures UrlV2Productos(productos, now) == GetProductos("v2", productos, now)
  {
  }

  // ---------------------------------------------------------------------
  // Hybrid versioning: routers mounted under URL prefixes
  // ---------------------------------------------------------------------

  /** What the versioned routers write on the exchange: `req.apiVersion` and the `API-Version` header. */
  datatype Exchange = Exchange(apiVersion: Option<string>, apiVersionHeader: Option<string>)

  /** The middleware `createVersionedRouter(version)` installs first in its router. */
  function Stamp(version: string, ex: Exchange): (r: Exchange)
    ensures r.apiVersion == Some(version) && r.apiVersionHeader == Some(version)
  {
    ex.(apiVersion := Some(version), apiVersionHeader := Some(version))
  }

  /** The bodies of the two routers' `GET /productos`. */
  datatype HybridBody =
    | HybridV1(productos: seq<Summary>)
    | HybridV2(success: bool, data: seq<Product>, total: int, version: string)

  function BodyVersion(b: HybridBody): string {
    match b
    case HybridV1(_) => "v1"
    case HybridV2(_, _, _, v) => v
  }

  /** The route a router built for `version` answers, on the path left after its mount prefix. */
  function RouterBody(version: string, rest: string, productos: seq<Product>): (r: Option<HybridBody>)
    requires version == "v1" || version == "v2"
    ensures r.Some? <==> rest == "/productos"
    ensures r.Some? ==> BodyVersion(r.value) == version
  {
    if rest != "/productos" then None
    else if version == "v1" then Some(HybridV1(ProjectV1(productos)))
    else Some(HybridV2(true, productos, |productos|, "v2"))
  }

  datatype Mount = Mount(prefix: string, version: string)

  /** `app.use('/api/v1', v1Router)`, `app.use('/api/v2', v2Router)`, `app.use('/api', v2Router)`. */
  const Mounts: seq<Mount> := [Mount("/api/v1", "v1"), Mount("/api/v2", "v2"), Mount("/api", "v2")]

  /** Express mount matching: the prefix is the whole path or a leading run of its segments. */
  predicate MountMatches(prefix: string, path: string) {
    path == prefix || (|path| > |prefix| && path[..|prefix|] == prefix && path[|prefix|] == '/')
  }

  /** The path a mounted router sees. */
  function RestOf(prefix: string, path: string): string
    requires MountMatches(prefix, path)
  {
    if path == prefix then "/" else path[|prefix|..]
  }

  /** Where a request ended: the exchange as stamped, and the body if some router answered. */
  datatype Routed = Routed(ex: Exchange, body: Option<HybridBody>)

  /**
   * The mounts tried in order: each matching router stamps its version,
   * then answers if it has the route, or passes the request on.
   */
  function Route(mounts: seq<Mount>, path: string, ex: Exchange, productos: seq<Product>): Routed
    requires forall k :: 0 <= k < |mounts| ==> mounts[k].version == "v1" || mounts[k].version == "v2"
    decreases |mounts|
  {
    if mounts == [] then Routed(ex, None)
    else
      var m := mounts[0];
      if MountMatches(m.prefix, path) then
        var stamped := Stamp(m.version, ex);
        var body := RouterBody(m.version, RestOf(m.prefix, path), productos);
        if body.Some? then Routed(stamped, body) else Route(mounts[1..], path, stamped, productos)
      else Route(mounts[1..], path, ex, productos)
  }

  /**
   * Whenever a versioned router answers, the request and the response
   * header carry exactly the version of the body it sent.
   */
  lemma {:induction false} AnswerCarriesItsVersion(mounts: seq<Mount>, path: string, ex: Exchange, productos: seq<Product>)
    requires forall k :: 0 <= k < |mounts| ==> mounts[k].version == "v1" || mounts[k].version == "v2"
    ensures var r := Route(mounts, path, ex, productos);
      r.body.Some? ==>
        r.ex.apiVersion == Some(BodyVersion(r.body.value)) && r.ex.apiVersionHeader == r.ex.apiVersion
    decreases |mounts|
  {
    if mounts != [] {
      var m := mounts[0];
      var next := if MountMatches(m.prefix, path) then Stamp(m.version, ex) else ex;
      AnswerCarriesItsVersion(mounts[1..], path, next, productos);
    }
  }

  /** The three listing routes of the hybrid app: `/api/productos` is served by the v2 router. */
  lemma HybridRoutes(ex: Exchange, productos: seq<Product>)
    ensures Route(Mounts, "/api/v1/productos", ex, productos) ==
      Routed(Exchange(Some("v1"), Some("v1")), Some(HybridV1(ProjectV1(productos))))
    ensures Route(Mounts, "/api/v2/productos", ex, productos) ==
      Routed(Exchange(Some("v2"), Some("v2")), Some(HybridV2(true, productos, |productos|, "v2")))
    ensures Route(Mounts, "/api/productos", ex, productos) ==
      Routed(Exchange(Some("v2"), Some("v2")), Some(HybridV2(true, productos, |productos|, "v2")))
  {
    RouteV1Path(ex, productos);
    RouteV2Path(ex, productos);
    RouteUnversionedPath(ex, productos);
  }

  lemma RouteV1Path(ex: Exchange, productos: seq<Product>)
    ensures Route(Mounts, "/api/v1/productos", ex, productos) ==
      Routed(Exchange(Some("v1"), Some("v1")), Some(HybridV1(ProjectV1(productos))))
  {
    var p1 := "/api/v1/productos";
    assert p1[..7] == "/api/v1" && p1[7] == '/' && p1[7..] == "/productos";
  }

  lemma RouteV2Path(ex: Exchange, productos: seq<Product>)
    ensures Route(Mounts, "/api/v2/productos", ex, productos) ==
      Routed(Exchange(Some("v2"), Some("v2")), Some(HybridV2(true, productos, |productos|, "v2")))
  {
    var p2 := "/api/v2/productos";
    assert !MountMatches("/api/v1", p2) by {
      assert p2[..7][6] != "/api/v1"[6];
    }
    assert p2[..7] == "/api/v2" && p2[7] == '/' && p2[7..] == "/productos";
  }

  lemma RouteUnversionedPath(ex: Exchange, productos: seq<Product>)
    ensures Route(Mounts, "/api/productos", ex, productos) ==
      Routed(Exchange(Some("v2"), Some("v2")), Some(HybridV2(true, productos, |productos|, "v2")))
  {
    var p0 := "/api/productos";
    assert !MountMatches("/api/v1", p0) by {
      assert p0[..7][5] != "/api/v1"[5];
    }
    assert !MountMatches("/api/v2", p0) by {
      assert p0[..7][5] != "/api/v2"[5];
    }
    assert p0[..4] == "/api" && p0[4] == '/' && p0[4..] == "/productos";
  }

  /**
   * A request under `/api` that no router answers leaves the exchange
   * stamped v2, by the unversioned mount that comes last, even when a v1
   * prefix matched before it.
   */
  lemma {:induction false} UnansweredApiPathsEndAsV2(path: string, ex: Exchange, productos: seq<Product>)
    requires MountMatches("/api", path)
    ensures var r := Route(Mounts, path, ex, productos);
      r.body.None? ==> r.ex == Exchange(Some("v2"), Some("v2"))
  {
  }
}
