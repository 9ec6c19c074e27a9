/** The package-version records returned by GitHub's "list package versions"
    endpoint, the rule that classifies a version as dangling (a container
    image version with no tags), and the filter that collects the ids of the
    dangling versions of a listing. */
module GithubPackageVersions {
  import opened Wrappers
  import opened Int64

  /** `metadata.container`: the image tags of a container version. */
  datatype MetadataContainer = MetadataContainer(tags: seq<string>)
  {
    /** A container record is dangling when it carries no tag at all. */
    function IsDangling(): (dangling: bool)
      ensures dangling <==> |tags| == 0
    {
      tags == []
    }
  }

  /** `metadata.docker`: decoded but never consulted by the classifier. */
  datatype MetadataDocker = MetadataDocker(tag: Option<seq<string>>)

  /** `metadata`: the package type and its (optional) type-specific records. */
  datatype Metadata = Metadata(
    container: Option<MetadataContainer>,
    docker: Option<MetadataDocker>,
    packageType: string)
  {
    /** Dangling only through a present container record with no tags; a
        missing container record keeps the version, whatever `docker` and
        `packageType` hold. */
    function IsDangling(): (dangling: bool)
      ensures container.None? ==> !dangling
      ensures dangling <==> container.Some? && container.value.tags == []
    {
      match container
      case Some(containerMetadata) => containerMetadata.IsDangling()
      case None => false
    }
  }

  /** One package version as decoded from the API. */
  datatype Version = Version(
    createdAt: string,
    deletedAt: Option<string>,
    description: Option<string>,
    htmlUrl: Option<string>,
    id: I64,
    license: Option<string>,
    metadata: Option<Metadata>,
    name: string,
    packageHtmlUrl: string,
    updatedAt: string,
    url: string)
  {
    /** The version's id when it is dangling, `None` otherwise. */
    function IdIfDangling(): (r: Option<I64>)
      ensures r.Some? <==> HasEmptyContainerTags(this)
      ensures r.Some? ==> r.value == id
    {
      match metadata
      case Some(m) => if m.IsDangling() then Some(id) else None
      case None => None
    }
  }

  /** The dangling rule written out on the fields: metadata present, its
      container record present, and that record's tag list empty. Every
      other shape of a version is kept. */
  ghost predicate HasEmptyContainerTags(v: Version) {
    && v.metadata.Some?
    && v.metadata.value.container.Some?
    && v.metadata.value.container.value.tags == []
  }

  /** The ids of the dangling versions of `vs`, in input order and without
      deduplication. Defined by peeling off the last version, the way a
      front-to-back loop extends its output. */
  function DanglingIds(vs: seq<Version>): (ids: seq<I64>)
    ensures |ids| <= |vs|
  {
    if vs == [] then []
    else
      var init, last := vs[..|vs| - 1], vs[|vs| - 1];
      match last.IdIfDangling()
      case Some(x) => DanglingIds(init) + [x]
      case None => DanglingIds(init)
  }

  /** The positions in `vs` of the dangling versions, in increasing order. */
  ghost function DanglingPositions(vs: seq<Version>): (ps: seq<nat>)
    ensures forall j :: 0 <= j < |ps| ==> ps[j] < |vs|
  {
    if vs == [] then []
    else
      var n := |vs| - 1;
      DanglingPositions(vs[..n]) + if HasEmptyContainerTags(vs[n]) then [n] else []
  }

  /** The dangling positions increase strictly, and they are exactly the
      positions of the versions the rule classifies as dangling. */
  lemma {:induction false} DanglingPositionsExact(vs: seq<Version>)
    ensures var ps := DanglingPositions(vs);
      && (forall j, k :: 0 <= j < k < |ps| ==> ps[j] < ps[k])
      && (forall n :: 0 <= n < |vs| ==> (n in ps <==> HasEmptyContainerTags(vs[n])))
  {
    if vs != [] {
      var n := |vs| - 1;
      DanglingPositionsExact(vs[..n]);
      assert forall m :: 0 <= m < n ==> vs[..n][m] == vs[m];
    }
  }

  /** `DanglingIds` is the subsequence of the input's ids picked out by the
      dangling positions: the k-th id returned is the id of the version at
      the k-th dangling position, and there are as many ids as dangling
      versions. */
  lemma {:induction false} DanglingIdsAtDanglingPositions(vs: seq<Version>)
    ensures var ps := DanglingPositions(vs);
      && |DanglingIds(vs)| == |ps|
      && (forall k :: 0 <= k < |ps| ==> DanglingIds(vs)[k] == vs[ps[k]].id)
  {
    if vs != [] {
      var n := |vs| - 1;
      DanglingIdsAtDanglingPositions(vs[..n]);
      var ps, ps' := DanglingPositions(vs), DanglingPositions(vs[..n]);
      assert forall k :: 0 <= k < |ps'| ==> vs[..n][ps'[k]] == vs[ps'[k]];
    }
  }

  /** Every id returned is the id of some dangling version of the input. */
  lemma {:induction false} DanglingIdsComeFromDanglingVersions(vs: seq<Version>, x: I64)
    requires x in DanglingIds(vs)
    ensures exists v :: v in vs && HasEmptyContainerTags(v) && v.id == x
  {
    var n := |vs| - 1;
    if x in DanglingIds(vs[..n]) {
      DanglingIdsComeFromDanglingVersions(vs[..n], x);
      var v :| v in vs[..n] && HasEmptyContainerTags(v) && v.id == x;
      assert v in vs;
    } else {
      assert HasEmptyContainerTags(vs[n]) && vs[n].id == x;
    }
  }

  /** Filtering distributes over concatenation of listings. */
  lemma {:induction false} DanglingIdsAppend(a: seq<Version>, b: seq<Version>)
    ensures DanglingIds(a + b) == DanglingIds(a) + DanglingIds(b)
  {
    if b != [] {
      var n := |b| - 1;
      assert (a + b)[..|a + b| - 1] == a + b[..n];
      assert (a + b)[|a + b| - 1] == b[n];
      DanglingIdsAppend(a, b[..n]);
    } else {
      assert a + b == a;
    }
  }

  /** A listing with no dangling version yields no id (the empty listing
      among them). */
  lemma {:induction false} NoDanglingNoIds(vs: seq<Version>)
    requires forall v :: v in vs ==> !HasEmptyContainerTags(v)
    ensures DanglingIds(vs) == []
  {
    if vs != [] {
      var n := |vs| - 1;
      assert forall v :: v in vs[..n] ==> v in vs;
      assert vs[n] in vs;
      NoDanglingNoIds(vs[..n]);
    }
  }

  /** Ids are not deduplicated: two dangling versions that share an id give
      that id twice. */
  lemma DuplicateIdsAreKept(v: Version, w: Version)
    requires HasEmptyContainerTags(v) && HasEmptyContainerTags(w) && v.id == w.id
    ensures DanglingIds([v, w]) == [v.id, v.id]
  {
    assert [v, w][..1] == [v];
    assert [v][..0] == [];
  }

  /** `get_all_dangling_indices`: one pass over the listing, pushing the id
      of every dangling version onto the output. */
  method GetAllDanglingIndices(versions: seq<Version>) returns (danglingIndices: seq<I64>)
    ensures danglingIndices == DanglingIds(versions)
  {
    danglingIndices := [];
    for i := 0 to |versions|
      invariant danglingIndices == DanglingIds(versions[..i])
    {
      assert versions[..i + 1][..i] == versions[..i];
      match versions[i].IdIfDangling()
      case Some(id) => danglingIndices := danglingIndices + [id];
      case None =>
    }
    assert versions[..|versions|] == versions;
  }
}
