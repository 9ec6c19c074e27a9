# gi-gh-container-cleaner, modelled in Dafny

`gi-gh-container-cleaner` deletes the *dangling* versions of a GitHub
organization's container packages. A dangling version is one that has
container metadata and no tags. The tool runs in three steps:

1. List the organization's container packages and collect their names into a set.
2. For each name, list the package's versions and keep the ids of the dangling ones.
3. Delete those ids one by one.

A failed first listing is only logged. Any later failure ends the run with
that error.

This project models the decision rule and the run:

- `int64.dfy`, module `Int64`: the `i64` id type and its decimal rendering.
  The rendering is used in the delete URL. A parser is its partner for the
  round trip.
- `github_packages.dfy`, module `GithubPackages`: the package record of a
  package listing.
- `github_package_versions.dfy`, module `GithubPackageVersions`:
  - the version records;
  - the three dangling tests (`is_dangling` on container and on metadata, and
    `get_id_if_dangling`);
  - the filter `get_all_dangling_indices`. It is a loop method proved against
    the pure function `DanglingIds`.
- `client.dfy`, module `Client`:
  - the run options;
  - the three URL builders;
  - an abstract `Transport`;
  - `get_package_names`, `get_package_dangling_indices` and
    `delete_package_dangling_id`, including reqwest's `error_for_status`.
- `cleaner.dfy`, module `Cleaner`: `main`.
  - `Run` records every round trip it issues as a `Call`.
  - `Plan` is the sequence of calls a run would make if nothing failed.
  - `RunUntilFailure` is the reference semantics: issue the plan in order and
    stop at the first failure.
  - The proofs show that the imperative loops produce exactly that record.
  - Lemmas show what the record implies:
    - the calls issued are a prefix of the plan;
    - nothing is issued after the first failure;
    - only dangling ids of a listed package are deleted;
    - a package's deletions come right after its own listing, in listing
      order, before the next package is listed (stated about the plan and
      about the calls a run issues).

The transport is three functions, one per kind of request. Each takes the
request URL and gives back one of two things:

- the decoded body, or the status of a DELETE;
- a transport, decode or status error.

When the code and its written description differ, the model follows the
code:

- After a failed package listing, `main` logs the error and returns `Ok(())`
  (src/main.rs:173-174, 193). It does not exit with a failure status, and
  `Run` returns `Ok(())` there.
- A deletion fails only on a client-error or server-error status (400-599),
  because that is what `error_for_status` rejects (src/main.rs:132). Any
  other status counts as success, including the other non-2xx ones.

## Model

| member | source | states |
|---|---|---|
| GithubPackageVersions.MetadataContainer.IsDangling | src/github_package_versions.rs:9-11 | a container record is dangling exactly when its tag list is empty |
| GithubPackageVersions.Metadata.IsDangling | src/github_package_versions.rs:30-36 | metadata without a container record is never dangling, whatever `docker` and `package_type` hold; with one, it is dangling exactly when the container's tag list is empty |
| GithubPackageVersions.Version.IdIfDangling | src/github_package_versions.rs:62-72 | returns a value exactly when metadata is present, its container is present and the tags are empty; the value returned is the version's own id |
| GithubPackageVersions.DanglingIds | src/github_package_versions.rs:79-89 | the ids kept are never more than the versions given |
| GithubPackageVersions.DanglingPositions | src/github_package_versions.rs:82-86 | every dangling position is a position of the listing |
| GithubPackageVersions.DanglingPositionsExact | src/github_package_versions.rs:82-86 | the dangling positions increase strictly, and a position is among them exactly when the version there has metadata, a container record and no tags |
| GithubPackageVersions.DanglingIdsAtDanglingPositions | src/github_package_versions.rs:80-88 | the output has one id per dangling version, and its k-th id is the id of the k-th dangling version in listing order, so it is an order-preserving subsequence of the input ids |
| GithubPackageVersions.DanglingIdsComeFromDanglingVersions | src/github_package_versions.rs:82-86 | every id returned is the id of some dangling version of the listing |
| GithubPackageVersions.DanglingIdsAppend | src/github_package_versions.rs:82-86 | the filter of two listings joined end to end is the two filters joined end to end |
| GithubPackageVersions.NoDanglingNoIds | src/github_package_versions.rs:79-89 | a listing with no dangling version, the empty listing among them, yields no id |
| GithubPackageVersions.DuplicateIdsAreKept | src/github_package_versions.rs:82-86 | ids are not deduplicated: two dangling versions sharing an id give that id twice |
| GithubPackageVersions.GetAllDanglingIndices | src/github_package_versions.rs:79-89 | the loop pushes exactly the ids of `DanglingIds`, in listing order |
| Int64.NatToDecimal | src/main.rs:46-51 | the rendering of a natural number is a non-empty digit string with no leading zero, and it is "0" only for zero |
| Int64.NatToDecimalRoundTrip | src/main.rs:46-51 | reading back the digits of a natural number gives that number |
| Int64.ToDecimal | src/main.rs:46-51 | an `i64` renders as a non-empty string that starts with '-' exactly when the number is negative, with digits everywhere else |
| Int64.ToDecimalRoundTrip | src/main.rs:46-51 | parsing the rendering of any `i64` gives it back |
| Int64.ToDecimalInjective | src/main.rs:46-51 | distinct ids render to distinct strings |
| Client.OrgListPackagesUrl | src/main.rs:32-37 | the URL is "https://api.github.com/orgs/", then the organization, then "/packages?package_type=container" |
| Client.OrgListPackageVersionsUrl | src/main.rs:39-44 | the URL is "https://api.github.com/orgs/", then the organization, then "/packages/container/", then the package name, then "/versions" |
| Client.OrgDeletePackageVersionUrl | src/main.rs:46-51 | the URL is the package's versions URL followed by "/" and the decimal rendering of the id |
| Client.VersionsUrlInjective | src/main.rs:39-44 | for one organization, distinct package names give distinct versions URLs |
| Client.AfterLastSlashOfJoin | src/main.rs:46-51 | the text after the last slash of a path joined to a slash-free segment is that segment |
| Client.DeleteUrlInjective | src/main.rs:46-51 | for one organization, the delete URL determines both the package name and the id |
| Client.GetPackageNames | src/main.rs:104-115 | a failed listing is passed on unchanged; otherwise the names returned have no duplicates and are exactly the set of `name` values in the listing |
| Client.GetPackageDanglingIndices | src/main.rs:117-125 | a failed version listing is passed on unchanged; otherwise the result is the dangling ids of the listing in order |
| Client.ErrorForStatus | src/main.rs:132 | a status is an error exactly when it is in 400-599, and the error carries that status |
| Client.DeletePackageDanglingId | src/main.rs:127-135 | the deletion succeeds exactly when the DELETE is answered with a status outside 400-599; a transport error is passed on and an error status is reported as such |
| Client.DeleteStatusExamples | src/main.rs:127-135 | 204 No Content is a successful deletion; 404 Not Found is an error carrying 404 |
| Cleaner.DeleteCalls | src/main.rs:185-188 | one deletion call per id, the k-th deleting the k-th id of the package |
| Cleaner.RunUntilFailureStopsAtFirstFailure | src/main.rs:179-187 | the calls issued are a prefix of the calls to issue; a successful run issued all of them and all succeeded; a failed run's last call is the one that failed, with the error reported, and every earlier call succeeded |
| Cleaner.SucceedingPrefix | src/main.rs:178-189 | calls that all succeed are issued in full before the rest runs as it would alone |
| Cleaner.RunUntilFailureAppend | src/main.rs:178-189 | two call lists run back to back: the second runs only when the first ran to the end without failure |
| Cleaner.FailingCall | src/main.rs:179-187 | after calls that succeeded, a failing call ends the run with its error and nothing after it is issued |
| Cleaner.FailureInMiddle | src/main.rs:178-189 | a failure in a block that follows succeeded calls ends the whole run there, and no later block is issued |
| Cleaner.PlanAppend | src/main.rs:178-189 | the plan for two name lists joined is the two plans joined |
| Cleaner.PlanSplitAt | src/main.rs:178-189 | the plan is the plan of the packages before the i-th, then the i-th package's calls, then the plan of the packages after it |
| Cleaner.PlanDeletesOnlyDangling | src/main.rs:178-189 | every deletion in the plan is of a package among the names, whose version listing succeeded, and of an id in that listing's dangling ids |
| Cleaner.PackageCallsShape | src/main.rs:178-189 | a package's calls start with its listing and go on with deletions of that package only |
| Cleaner.PlanDeletesFollowTheirListing | src/main.rs:178-189 | each deletion of package p follows the listing of p, with only deletions of p in between, so a package's deletions end before the next package is listed |
| Cleaner.ListingFailsAt | src/main.rs:179 | when the i-th package's version listing fails after everything before it succeeded, the run ends with that error and that listing is the last call |
| Cleaner.ListingSucceedsAt | src/main.rs:179-188 | when the i-th package's listing succeeds after everything before it, the run goes on with that package's deletions and then the later packages |
| Cleaner.DeletePackageDanglingIds | src/main.rs:185-188 | the inner loop issues the deletions of the dangling ids in order and stops at the first that fails, exactly as `RunUntilFailure` over `DeleteCalls` |
| Cleaner.ProcessPackages | src/main.rs:178-189 | the outer loop's result and calls are exactly `RunUntilFailure` over the plan of the names |
| Cleaner.Run | src/main.rs:170-194 | the trace starts with the package listing. When that listing fails, the run returns `Ok(())` and issues nothing else. Otherwise the names are the duplicate-free set of listed names, and the result and the rest of the trace are exactly `RunUntilFailure` over their plan |
| Cleaner.RunDeletesFollowTheirListing | src/main.rs:178-189 | whatever the transport answers, each deletion of package p that a run issues follows the run's listing of p, with only deletions of p in between, so a package's deletions all end before the next package is listed |
| Cleaner.RunDeletesOnlyDangling | src/main.rs:178-189 | whatever the transport answers, every deletion a run issues is of a dangling id, from a successful listing of a package among the names |

## Left out

- HTTP plumbing is left out: client construction, headers, bearer authentication, TLS options and the 10 s timeout (src/main.rs:53-102). Each request is one answer from the `Transport`, looked up by URL, so repeating a request gives the same answer.
- A repeated DELETE is not modelled faithfully. Listing requests are never repeated in a run, because the package names are deduplicated. Delete requests can be: the dangling ids are not deduplicated (`DuplicateIdsAreKept`), so two dangling versions with the same id make the loop at src/main.rs:185-187 send the same DELETE URL twice. The model gives the second DELETE the same answer as the first, so such a run can fail only at the first of the two. The real endpoint would most likely answer the second with 404 Not Found, and the run would end with that error.
- JSON decoding with serde is left out. The transport hands back decoded records, and a decode failure is a `DecodeError`.
- The `owner` and `repository` fields of a package item are left out. They are untyped JSON values that nothing reads.
- Logging, the `RUST_LOG` setup and command-line parsing are left out (src/main.rs:138-167). They are global side effects and library code. The options come in as a `RunOptions` value.
- The tokio runtime and `async` are left out. The run is single-threaded and sequential, so it is modelled as ordinary sequential calls.
- Client.GetPackageNames: the iteration order of the `HashSet` is not specified. The method picks the names in an arbitrary order, and its contract states only set equality and no duplicates.
- Pagination is not modelled, because the code does not do it. Only the first page the transport answers is seen.
