/** The package records returned by GitHub's "list organization packages"
    endpoint. Only `name` is read by the cleaner. */
module GithubPackages {
  import opened Wrappers
  import opened Int64

  datatype PackageItem = PackageItem(
    createdAt: string,
    htmlUrl: string,
    id: I64,
    name: string,
    packageType: string,
    updatedAt: string,
    url: string,
    versionCount: Option<I64>,
    visibility: string)
}
