/** The organization client of the cleaner: the run options, the three REST
    endpoints it addresses, an abstract transport standing for the HTTP
    round trips, and the three client operations (list package names, list
    the dangling version ids of a package, delete one version). */
module Client {
  import opened Wrappers
  import opened Int64
  import opened GithubPackages
  import opened GithubPackageVersions

  /** The command-line options: organization name and access token. The
      token only goes into the authorization header, which is not modelled. */
  datatype RunOptions = RunOptions(organization: string, personalAccessToken: string)

  /** An HTTP status code as the `http` crate admits it. */
  type StatusCode = s: int | 100 <= s <= 999 witness 200

  /** Failures of a round trip: the transport itself (connection, TLS,
      timeout), decoding the JSON body, or an error status. */
  datatype Error =
    | TransportError(reason: string)
    | DecodeError(reason: string)
    | StatusError(status: StatusCode)

  /** What the API answers, keyed by request URL: a GET of a package listing
      (already decoded), a GET of a version listing (already decoded), and
      the status of a DELETE. Each call is one round trip with no retry. */
  datatype Transport = Transport(
    getPackages: string -> Result<seq<PackageItem>, Error>,
    getVersions: string -> Result<seq<Version>, Error>,
    delete: string -> Result<StatusCode, Error>)

  const API_ORGS := "https://api.github.com/orgs/"
  const LIST_PACKAGES_SUFFIX := "/packages?package_type=container"
  const CONTAINER_SEGMENT := "/packages/container/"
  const VERSIONS_SEGMENT := "/versions"

  /** `get_url_org_list_packages`. */
  function OrgListPackagesUrl(opts: RunOptions): (url: string)
    ensures |url| == |API_ORGS| + |opts.organization| + |LIST_PACKAGES_SUFFIX|
    ensures url[..|API_ORGS|] == API_ORGS
    ensures url[|API_ORGS|..|API_ORGS| + |opts.organization|] == opts.organization
    ensures url[|API_ORGS| + |opts.organization|..] == LIST_PACKAGES_SUFFIX
  {
    API_ORGS + opts.organization + LIST_PACKAGES_SUFFIX
  }

  /** `get_url_org_list_package_versions`. */
  function OrgListPackageVersionsUrl(opts: RunOptions, packageName: string): (url: string)
    ensures |url| == |API_ORGS| + |opts.organization| + |CONTAINER_SEGMENT| + |packageName| + |VERSIONS_SEGMENT|
    ensures url[..|API_ORGS|] == API_ORGS
    ensures url[|API_ORGS|..|API_ORGS| + |opts.organization|] == opts.organization
    ensures var n := |API_ORGS| + |opts.organization|;
      url[n..n + |CONTAINER_SEGMENT|] == CONTAINER_SEGMENT
    ensures var n := |API_ORGS| + |opts.organization| + |CONTAINER_SEGMENT|;
      url[n..n + |packageName|] == packageName
    ensures url[|url| - |VERSIONS_SEGMENT|..] == VERSIONS_SEGMENT
  {
    API_ORGS + opts.organization + CONTAINER_SEGMENT + packageName + VERSIONS_SEGMENT
  }

  /** `get_url_org_delete_package_version`: the version-listing URL of the
      package, a slash, and the decimal id. */
  function OrgDeletePackageVersionUrl(opts: RunOptions, packageName: string, packageId: I64): (url: string)
    ensures url == OrgListPackageVersionsUrl(opts, packageName) + "/" + ToDecimal(packageId)
  {
    API_ORGS + opts.organization + CONTAINER_SEGMENT + packageName + VERSIONS_SEGMENT + "/" + ToDecimal(packageId)
  }

  /** Different packages of one organization have different version-listing
      endpoints. */
  lemma VersionsUrlInjective(opts: RunOptions, p: string, q: string)
    requires OrgListPackageVersionsUrl(opts, p) == OrgListPackageVersionsUrl(opts, q)
    ensures p == q
  {
    var prefix := API_ORGS + opts.organization + CONTAINER_SEGMENT;
    var u, v := OrgListPackageVersionsUrl(opts, p), OrgListPackageVersionsUrl(opts, q);
    assert u == prefix + p + VERSIONS_SEGMENT;
    assert v == prefix + q + VERSIONS_SEGMENT;
    assert p == u[|prefix|..|u| - |VERSIONS_SEGMENT|];
    assert q == v[|prefix|..|v| - |VERSIONS_SEGMENT|];
  }

  /** The part of `s` after its last slash (all of `s` when it has none). */
  ghost function AfterLastSlash(s: string): string {
    if s == [] || s[|s| - 1] == '/' then [] else AfterLastSlash(s[..|s| - 1]) + [s[|s| - 1]]
  }

  lemma {:induction false} AfterLastSlashOfJoin(x: string, d: string)
    requires |x| > 0 && x[|x| - 1] == '/' && '/' !in d
    ensures AfterLastSlash(x + d) == d
  {
    if d == [] {
      assert x + d == x;
    } else {
      var n := |d| - 1;
      assert (x + d)[..|x + d| - 1] == x + d[..n];
      assert d[n] in d;
      AfterLastSlashOfJoin(x, d[..n]);
    }
  }

  /** A deletion URL names exactly one package and one version: the
      rendered id contains no slash, so the last slash of the URL separates
      the package's listing URL from the id. */
  lemma DeleteUrlInjective(opts: RunOptions, p: string, q: string, a: I64, b: I64)
    requires OrgDeletePackageVersionUrl(opts, p, a) == OrgDeletePackageVersionUrl(opts, q, b)
    ensures p == q && a == b
  {
    var u := OrgDeletePackageVersionUrl(opts, p, a);
    var x, y := OrgListPackageVersionsUrl(opts, p) + "/", OrgListPackageVersionsUrl(opts, q) + "/";
    var da, db := ToDecimal(a), ToDecimal(b);
    assert u == x + da && u == y + db;
    assert '/' !in da && '/' !in db;
    AfterLastSlashOfJoin(x, da);
    AfterLastSlashOfJoin(y, db);
    ToDecimalInjective(a, b);
    assert x == u[..|x|] && y == u[..|y|];
    assert x[..|x| - 1] == y[..|y| - 1];
    VersionsUrlInjective(opts, p, q);
  }

  /** The set of names in a package listing. */
  ghost function NameSet(items: seq<PackageItem>): set<string> {
    set i | 0 <= i < |items| :: items[i].name
  }

  predicate NoDuplicates<T(==)>(s: seq<T>) {
    forall i, j :: 0 <= i < j < |s| ==> s[i] != s[j]
  }

  /** `get_package_names`: fetch the container-package listing, collect the
      names into a set, and hand the set back as a list in no particular
      order. A failed fetch or decode is passed on unchanged. */
  method GetPackageNames(opts: RunOptions, t: Transport) returns (r: Result<seq<string>, Error>)
    ensures var listing := t.getPackages(OrgListPackagesUrl(opts));
      && (listing.Err? ==> r == Err(listing.error))
      && (listing.Ok? ==> r.Ok? && NoDuplicates(r.value)
                          && (forall x :: x in r.value <==> x in NameSet(listing.value)))
  {
    var listing := t.getPackages(OrgListPackagesUrl(opts));
    if listing.Err? {
      return Err(listing.error);
    }
    var items := listing.value;
    var packageNames: set<string> := {};
    for i := 0 to |items|
      invariant packageNames == NameSet(items[..i])
    {
      assert items[..i + 1][..i] == items[..i];
      packageNames := packageNames + {items[i].name};
    }
    assert items[..|items|] == items;
    var names: seq<string> := [];
    var rest := packageNames;
    while rest != {}
      invariant rest <= packageNames
      invariant forall x :: x in names <==> x in packageNames && x !in rest
      invariant NoDuplicates(names)
      decreases rest
    {
      var x :| x in rest;
      names := names + [x];
      rest := rest - {x};
    }
    return Ok(names);
  }

  /** `get_package_dangling_indices`: fetch the package's version listing and
      keep the ids of its dangling versions, in listing order. */
  method GetPackageDanglingIndices(opts: RunOptions, t: Transport, packageName: string)
    returns (r: Result<seq<I64>, Error>)
    ensures var listing := t.getVersions(OrgListPackageVersionsUrl(opts, packageName));
      && (listing.Err? ==> r == Err(listing.error))
      && (listing.Ok? ==> r == Ok(DanglingIds(listing.value)))
  {
    var listing := t.getVersions(OrgListPackageVersionsUrl(opts, packageName));
    match listing
    case Err(e) => r := Err(e);
    case Ok(versions) =>
      var ids := GetAllDanglingIndices(versions);
      r := Ok(ids);
  }

  /** reqwest's `error_for_status`: a client (4xx) or server (5xx) status is
      an error; every other status passes. */
  function ErrorForStatus(status: StatusCode): (r: Result<(), Error>)
    ensures r.Err? <==> 400 <= status < 600
    ensures r.Err? ==> r.error == StatusError(status)
  {
    if 400 <= status <= 599 then Err(StatusError(status)) else Ok(())
  }

  /** `delete_package_dangling_id`: issue the DELETE and turn an error
      status into an error. */
  function DeletePackageDanglingId(opts: RunOptions, t: Transport, packageName: string, packageId: I64)
    : (r: Result<(), Error>)
    ensures var response := t.delete(OrgDeletePackageVersionUrl(opts, packageName, packageId));
      && (r.Ok? <==> response.Ok? && !(400 <= response.value < 600))
      && (response.Err? ==> r == Err(response.error))
      && (response.Ok? && r.Err? ==> r.error == StatusError(response.value))
  {
    match t.delete(OrgDeletePackageVersionUrl(opts, packageName, packageId))
    case Err(e) => Err(e)
    case Ok(status) => ErrorForStatus(status)
  }

  /** A deletion answered 204 No Content succeeds; one answered 404 Not
      Found fails with that status. */
  lemma DeleteStatusExamples()
    ensures ErrorForStatus(204) == Ok(())
    ensures ErrorForStatus(404) == Err(StatusError(404))
  {
  }
}
