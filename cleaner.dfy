/** The run of the cleaner (`main`): list the organization's container
    packages, then for each package list its dangling versions and delete
    them one by one. A failed initial listing is only logged; any later
    failure ends the run at once. The run is modelled over an abstract
    `Transport` and records, in order, every round trip it issues. */
module Cleaner {
  import opened Wrappers
  import opened Int64
  import opened GithubPackageVersions
  import opened Client

  /** One round trip issued by a run. */
  datatype Call =
    | ListPackages
    | ListVersions(package: string)
    | DeleteVersion(package: string, id: I64)

  /** The error a call meets, if any, when the transport answers as `t`. */
  function CallError(opts: RunOptions, t: Transport, c: Call): Option<Error> {
    match c
    case ListPackages =>
      (match t.getPackages(OrgListPackagesUrl(opts))
       case Err(e) => Some(e)
       case Ok(_) => None)
    case ListVersions(p) =>
      (match t.getVersions(OrgListPackageVersionsUrl(opts, p))
       case Err(e) => Some(e)
       case Ok(_) => None)
    case DeleteVersion(p, id) =>
      (match DeletePackageDanglingId(opts, t, p, id)
       case Err(e) => Some(e)
       case Ok(_) => None)
  }

  /** How every call fares against the transport `t`. */
  ghost function Answers(opts: RunOptions, t: Transport): Call -> Option<Error> {
    c => CallError(opts, t, c)
  }

  /** The calls that delete the ids `ids` of package `p`, in order. */
  function DeleteCalls(p: string, ids: seq<I64>): (calls: seq<Call>)
    ensures |calls| == |ids|
    ensures forall k :: 0 <= k < |ids| ==> calls[k] == DeleteVersion(p, ids[k])
  {
    seq(|ids|, k requires 0 <= k < |ids| => DeleteVersion(p, ids[k]))
  }

  /** The calls made for one package: list its versions, then delete each
      dangling id in listing order (nothing more when the listing fails). */
  ghost function PackageCalls(opts: RunOptions, t: Transport, p: string): seq<Call> {
    [ListVersions(p)] +
    match t.getVersions(OrgListPackageVersionsUrl(opts, p))
    case Ok(versions) => DeleteCalls(p, DanglingIds(versions))
    case Err(_) => []
  }

  /** The calls a run over `names` would make if no call ever failed. */
  ghost function Plan(opts: RunOptions, t: Transport, names: seq<string>): seq<Call> {
    if names == [] then [] else PackageCalls(opts, t, names[0]) + Plan(opts, t, names[1..])
  }

  // ----- Issuing calls until the first failure, for any answers -----

  ghost predicate AllSucceed(answer: Call -> Option<Error>, calls: seq<Call>) {
    forall k :: 0 <= k < |calls| ==> answer(calls[k]).None?
  }

  /** A result together with the calls issued to reach it. */
  datatype RunRecord = RunRecord(result: Result<(), Error>, calls: seq<Call>)

  /** Issue `calls` in order and stop after the first one that fails,
      reporting its error. */
  ghost function RunUntilFailure(answer: Call -> Option<Error>, calls: seq<Call>): RunRecord {
    if calls == [] then RunRecord(Ok(()), [])
    else match answer(calls[0])
      case Some(e) => RunRecord(Err(e), [calls[0]])
      case None =>
        var rest := RunUntilFailure(answer, calls[1..]);
        RunRecord(rest.result, [calls[0]] + rest.calls)
  }

  /** What `RunUntilFailure` means: the calls issued are a prefix of the
      calls to issue; if the run succeeded that prefix is everything and
      every call in it succeeded; if it failed, the last call issued is the
      one that failed, with the reported error, and all earlier calls
      succeeded. */
  lemma {:induction false} RunUntilFailureStopsAtFirstFailure(answer: Call -> Option<Error>, calls: seq<Call>)
    ensures var r := RunUntilFailure(answer, calls);
      && |r.calls| <= |calls| && r.calls == calls[..|r.calls|]
      && (r.result.Ok? ==> r.calls == calls && AllSucceed(answer, calls))
      && (r.result.Err? ==>
            && |r.calls| > 0
            && answer(r.calls[|r.calls| - 1]) == Some(r.result.error)
            && AllSucceed(answer, r.calls[..|r.calls| - 1]))
  {
    if calls != [] && answer(calls[0]).None? {
      RunUntilFailureStopsAtFirstFailure(answer, calls[1..]);
      var rest := RunUntilFailure(answer, calls[1..]);
      var r := RunUntilFailure(answer, calls);
      assert r.calls == [calls[0]] + rest.calls;
      if r.result.Err? {
        assert r.calls[..|r.calls| - 1] == [calls[0]] + rest.calls[..|rest.calls| - 1];
      }
    }
  }

  /** Calls that all succeed are issued and then the rest runs as alone. */
  lemma {:induction false} SucceedingPrefix(answer: Call -> Option<Error>, done: seq<Call>, rest: seq<Call>)
    requires AllSucceed(answer, done)
    ensures var r := RunUntilFailure(answer, rest);
      RunUntilFailure(answer, done + rest) == RunRecord(r.result, done + r.calls)
  {
    if done != [] {
      assert (done + rest)[0] == done[0];
      assert (done + rest)[1..] == done[1..] + rest;
      assert answer(done[0]).None?;
      SucceedingPrefix(answer, done[1..], rest);
      assert done == [done[0]] + done[1..];
    } else {
      assert done + rest == rest;
    }
  }

  /** Running two call lists back to back: the second runs only when the
      first ran to the end without failure. */
  lemma {:induction false} RunUntilFailureAppend(answer: Call -> Option<Error>, a: seq<Call>, b: seq<Call>)
    ensures var ra, rb := RunUntilFailure(answer, a), RunUntilFailure(answer, b);
      RunUntilFailure(answer, a + b) == if ra.result.Err? then ra else RunRecord(rb.result, ra.calls + rb.calls)
  {
    if a == [] {
      assert a + b == b;
    } else {
      assert (a + b)[0] == a[0] && (a + b)[1..] == a[1..] + b;
      if answer(a[0]).None? {
        RunUntilFailureAppend(answer, a[1..], b);
        var r1, rb := RunUntilFailure(answer, a[1..]), RunUntilFailure(answer, b);
        if r1.result.Ok? {
          assert [a[0]] + (r1.calls + rb.calls) == ([a[0]] + r1.calls) + rb.calls;
        }
      }
    }
  }

  /** Moving the brackets of a concatenation of call lists. */
  lemma AppendAssociative(a: seq<Call>, b: seq<Call>, c: seq<Call>, d: seq<Call>)
    ensures (a + (b + c)) + d == (a + b) + (c + d)
    ensures a + (b + c) == (a + b) + c
  {
  }

  /** A succeeding call added to succeeded calls keeps them all succeeded. */
  lemma AllSucceedExtend(answer: Call -> Option<Error>, done: seq<Call>, c: Call)
    requires AllSucceed(answer, done) && answer(c).None?
    ensures AllSucceed(answer, done + [c])
  {
    assert forall k :: 0 <= k < |done| ==> (done + [c])[k] == done[k];
  }

  /** Two lists of succeeded calls joined are all succeeded. */
  lemma AllSucceedConcat(answer: Call -> Option<Error>, a: seq<Call>, b: seq<Call>)
    requires AllSucceed(answer, a) && AllSucceed(answer, b)
    ensures AllSucceed(answer, a + b)
  {
    assert forall k :: 0 <= k < |a| ==> (a + b)[k] == a[k];
    assert forall k :: |a| <= k < |a| + |b| ==> (a + b)[k] == b[k - |a|];
  }

  /** After calls that all succeeded, the first failing call ends the run
      with its error. */
  lemma FailingCall(answer: Call -> Option<Error>, done: seq<Call>, c: Call, rest: seq<Call>)
    requires AllSucceed(answer, done) && answer(c).Some?
    ensures RunUntilFailure(answer, done + ([c] + rest)) == RunRecord(Err(answer(c).value), done + [c])
  {
    SucceedingPrefix(answer, done, [c] + rest);
    assert ([c] + rest)[0] == c;
  }

  // ----- The plan of a run -----

  lemma PlanAppend(opts: RunOptions, t: Transport, a: seq<string>, b: seq<string>)
    ensures Plan(opts, t, a + b) == Plan(opts, t, a) + Plan(opts, t, b)
    decreases |a|
  {
    if a != [] {
      assert (a + b)[0] == a[0];
      assert (a + b)[1..] == a[1..] + b;
      PlanAppend(opts, t, a[1..], b);
    } else {
      assert a + b == b;
    }
  }

  lemma PlanSplitAt(opts: RunOptions, t: Transport, names: seq<string>, i: nat)
    requires i < |names|
    ensures Plan(opts, t, names) == Plan(opts, t, names[..i]) + PackageCalls(opts, t, names[i]) + Plan(opts, t, names[i + 1..])
    ensures Plan(opts, t, names[..i + 1]) == Plan(opts, t, names[..i]) + PackageCalls(opts, t, names[i])
  {
    var before, from := names[..i], names[i..];
    var block := PackageCalls(opts, t, names[i]);
    assert Plan(opts, t, names) == Plan(opts, t, before) + Plan(opts, t, from) by {
      PlanAppend(opts, t, before, from);
      assert before + from == names;
    }
    assert Plan(opts, t, from) == block + Plan(opts, t, names[i + 1..]) by {
      assert from[0] == names[i] && from[1..] == names[i + 1..];
    }
    assert Plan(opts, t, names[..i + 1]) == Plan(opts, t, before) + block by {
      PlanAppend(opts, t, before, [names[i]]);
      assert before + [names[i]] == names[..i + 1];
      assert [names[i]][1..] == [];
    }
    AppendAssociative(Plan(opts, t, before), block, Plan(opts, t, names[i + 1..]), []);
  }

  /** The deletion calls split around the j-th id. */
  lemma DeleteCallsSplitAt(p: string, ids: seq<I64>, j: nat)
    requires j < |ids|
    ensures DeleteCalls(p, ids) == DeleteCalls(p, ids[..j]) + ([DeleteVersion(p, ids[j])] + DeleteCalls(p, ids[j + 1..]))
    ensures DeleteCalls(p, ids[..j + 1]) == DeleteCalls(p, ids[..j]) + [DeleteVersion(p, ids[j])]
  {
  }

  /** Every deletion in the plan is of an id from the dangling list of a
      package being processed, and that package's listing succeeded. */
  lemma {:induction false} PlanDeletesOnlyDangling(opts: RunOptions, t: Transport, names: seq<string>, k: nat)
    requires k < |Plan(opts, t, names)| && Plan(opts, t, names)[k].DeleteVersion?
    ensures IsDanglingDeletion(opts, t, names, Plan(opts, t, names)[k])
  {
    var block := PackageCalls(opts, t, names[0]);
    if k >= |block| {
      assert Plan(opts, t, names)[k] == Plan(opts, t, names[1..])[k - |block|];
      PlanDeletesOnlyDangling(opts, t, names[1..], k - |block|);
    } else {
      var listing := t.getVersions(OrgListPackageVersionsUrl(opts, names[0]));
      assert listing.Ok?;
      var ids := DanglingIds(listing.value);
      assert block[k] == DeleteCalls(names[0], ids)[k - 1];
    }
  }

  /** A package's calls: its listing first, then only deletions of it. */
  lemma PackageCallsShape(opts: RunOptions, t: Transport, p: string)
    ensures var block := PackageCalls(opts, t, p);
      && block[0] == ListVersions(p)
      && forall i :: 0 < i < |block| ==> block[i].DeleteVersion? && block[i].package == p
  {
  }

  /** In the plan, each deletion of package `p` comes after the listing of
      `p` (at the returned position `m`), and only deletions of `p` lie
      between the two: a package's deletions are all issued before the next
      package is listed. */
  lemma {:induction false} PlanDeletesFollowTheirListing(opts: RunOptions, t: Transport, names: seq<string>, k: nat)
    returns (m: nat)
    requires k < |Plan(opts, t, names)| && Plan(opts, t, names)[k].DeleteVersion?
    ensures var plan := Plan(opts, t, names);
      && m < k && plan[m] == ListVersions(plan[k].package)
      && forall i :: m < i < k ==> plan[i].DeleteVersion? && plan[i].package == plan[k].package
  {
    var plan := Plan(opts, t, names);
    var block := PackageCalls(opts, t, names[0]);
    var tail := Plan(opts, t, names[1..]);
    assert plan == block + tail;
    PackageCallsShape(opts, t, names[0]);
    if k >= |block| {
      var m' := PlanDeletesFollowTheirListing(opts, t, names[1..], k - |block|);
      m := m' + |block|;
      assert plan[k] == tail[k - |block|];
      assert plan[m] == tail[m'];
      forall i | m < i < k
        ensures plan[i].DeleteVersion? && plan[i].package == plan[k].package
      {
        assert plan[i] == tail[i - |block|];
      }
    } else {
      m := 0;
      assert plan[k] == block[k];
      assert forall i :: 0 < i < k ==> plan[i] == block[i];
    }
  }

  /** When the listing of the i-th package fails after everything before
      it succeeded, the run ends there with that error. */
  lemma ListingFailsAt(opts: RunOptions, t: Transport, names: seq<string>, i: nat)
    requires i < |names| && AllSucceed(Answers(opts, t), Plan(opts, t, names[..i]))
    requires t.getVersions(OrgListPackageVersionsUrl(opts, names[i])).Err?
    ensures RunUntilFailure(Answers(opts, t), Plan(opts, t, names))
         == RunRecord(Err(t.getVersions(OrgListPackageVersionsUrl(opts, names[i])).error),
                      Plan(opts, t, names[..i]) + [ListVersions(names[i])])
  {
    var done, later := Plan(opts, t, names[..i]), Plan(opts, t, names[i + 1..]);
    assert PackageCalls(opts, t, names[i]) == [ListVersions(names[i])];
    PlanSplitAt(opts, t, names, i);
    AppendAssociative(done, [ListVersions(names[i])], later, []);
    FailingCall(Answers(opts, t), done, ListVersions(names[i]), later);
  }

  /** When the listing of the i-th package succeeds after everything before
      it succeeded, the listing joins the succeeded calls and the run goes
      on with the package's deletions and then the later packages. */
  lemma ListingSucceedsAt(opts: RunOptions, t: Transport, names: seq<string>, i: nat)
    requires i < |names| && AllSucceed(Answers(opts, t), Plan(opts, t, names[..i]))
    requires t.getVersions(OrgListPackageVersionsUrl(opts, names[i])).Ok?
    ensures var p := names[i];
      var done := Plan(opts, t, names[..i]) + [ListVersions(p)];
      var deletes := DeleteCalls(p, DanglingIds(t.getVersions(OrgListPackageVersionsUrl(opts, p)).value));
      && AllSucceed(Answers(opts, t), done)
      && Plan(opts, t, names[..i + 1]) == done + deletes
      && Plan(opts, t, names) == done + (deletes + Plan(opts, t, names[i + 1..]))
  {
    var answer := Answers(opts, t);
    var p := names[i];
    var done := Plan(opts, t, names[..i]);
    var deletes := DeleteCalls(p, DanglingIds(t.getVersions(OrgListPackageVersionsUrl(opts, p)).value));
    var later := Plan(opts, t, names[i + 1..]);
    assert PackageCalls(opts, t, p) == [ListVersions(p)] + deletes;
    PlanSplitAt(opts, t, names, i);
    AppendAssociative(done, [ListVersions(p)], deletes, later);
    assert answer(ListVersions(p)).None?;
    AllSucceedExtend(answer, done, ListVersions(p));
  }

  /** A failure among calls that follow succeeded ones ends the whole run
      there. */
  lemma FailureInMiddle(answer: Call -> Option<Error>, done: seq<Call>, middle: seq<Call>, later: seq<Call>)
    requires AllSucceed(answer, done) && RunUntilFailure(answer, middle).result.Err?
    ensures var rm := RunUntilFailure(answer, middle);
      RunUntilFailure(answer, done + (middle + later)) == RunRecord(rm.result, done + rm.calls)
  {
    SucceedingPrefix(answer, done, middle + later);
    RunUntilFailureAppend(answer, middle, later);
  }

  // ----- The run -----

  /** The inner loop of `main`: delete the dangling ids of package `p` in
      order, stopping at the first deletion that fails. */
  method DeletePackageDanglingIds(opts: RunOptions, t: Transport, p: string, danglingIndices: seq<I64>)
    returns (result: Result<(), Error>, calls: seq<Call>)
    ensures RunRecord(result, calls) == RunUntilFailure(Answers(opts, t), DeleteCalls(p, danglingIndices))
  {
    ghost var answer := Answers(opts, t);
    calls := [];
    for j := 0 to |danglingIndices|
      invariant calls == DeleteCalls(p, danglingIndices[..j])
      invariant AllSucceed(answer, calls)
    {
      var id := danglingIndices[j];
      DeleteCallsSplitAt(p, danglingIndices, j);
      var deleted := DeletePackageDanglingId(opts, t, p, id);
      if deleted.Err? {
        FailingCall(answer, calls, DeleteVersion(p, id), DeleteCalls(p, danglingIndices[j + 1..]));
        calls := calls + [DeleteVersion(p, id)];
        result := Err(deleted.error);
        return;
      }
      AllSucceedExtend(answer, calls, DeleteVersion(p, id));
      calls := calls + [DeleteVersion(p, id)];
    }
    result := Ok(());
    assert danglingIndices[..|danglingIndices|] == danglingIndices;
    SucceedingPrefix(answer, calls, []);
    assert calls + [] == calls;
  }

  /** The loop of `main` over the package names: list each package's
      dangling versions and delete them, stopping at the first error, which
      `?` hands back to the caller. */
  method ProcessPackages(opts: RunOptions, t: Transport, names: seq<string>)
    returns (result: Result<(), Error>, calls: seq<Call>)
    ensures RunRecord(result, calls) == RunUntilFailure(Answers(opts, t), Plan(opts, t, names))
  {
    calls := [];
    for i := 0 to |names|
      invariant calls == Plan(opts, t, names[..i]) && AllSucceed(Answers(opts, t), calls)
    {
      var p := names[i];
      var listed := GetPackageDanglingIndices(opts, t, p);
      if listed.Err? {
        ListingFailsAt(opts, t, names, i);
        calls := calls + [ListVersions(p)];
        result := Err(listed.error);
        return;
      }
      ListingSucceedsAt(opts, t, names, i);
      calls := calls + [ListVersions(p)];
      var deleted, deleteCalls := DeletePackageDanglingIds(opts, t, p, listed.value);
      if deleted.Err? {
        FailureInMiddle(Answers(opts, t), calls, DeleteCalls(p, listed.value), Plan(opts, t, names[i + 1..]));
        calls := calls + deleteCalls;
        result := deleted;
        return;
      }
      RunUntilFailureStopsAtFirstFailure(Answers(opts, t), DeleteCalls(p, listed.value));
      AllSucceedConcat(Answers(opts, t), calls, deleteCalls);
      calls := calls + deleteCalls;
    }
    result := Ok(());
    assert names[..|names|] == names;
    SucceedingPrefix(Answers(opts, t), calls, []);
    assert calls + [] == calls;
  }

  /** `main`: list the package names; on failure log it and end the run
      successfully without touching any package; otherwise process every
      package. Returns the run's result, the package names in the order
      they were processed, and the calls issued. */
  method Run(opts: RunOptions, t: Transport)
    returns (result: Result<(), Error>, names: seq<string>, trace: seq<Call>)
    ensures |trace| >= 1 && trace[0] == ListPackages
    ensures var listing := t.getPackages(OrgListPackagesUrl(opts));
      && (listing.Err? ==> result == Ok(()) && trace == [ListPackages] && names == [])
      && (listing.Ok? ==>
            && NoDuplicates(names)
            && (forall x :: x in names <==> x in NameSet(listing.value))
            && RunRecord(result, trace[1..]) == RunUntilFailure(Answers(opts, t), Plan(opts, t, names)))
  {
    trace := [ListPackages];
    var packageNames := GetPackageNames(opts, t);
    match packageNames
    case Err(_) =>
      result, names := Ok(()), [];
    case Ok(ns) =>
      names := ns;
      var calls;
      result, calls := ProcessPackages(opts, t, names);
      trace := trace + calls;
      assert trace[1..] == calls;
  }

  /** The predicate every deletion of a run must meet: its package is one
      of the run's packages, that package's version listing succeeded, and
      the id is in the package's dangling list. */
  ghost predicate IsDanglingDeletion(opts: RunOptions, t: Transport, names: seq<string>, c: Call)
    requires c.DeleteVersion?
  {
    var listing := t.getVersions(OrgListPackageVersionsUrl(opts, c.package));
    c.package in names && listing.Ok? && c.id in DanglingIds(listing.value)
  }

  /** Whatever the transport answers, a run over `names` deletes only
      dangling ids of the package they were listed for. */
  lemma RunDeletesOnlyDangling(opts: RunOptions, t: Transport, names: seq<string>)
    ensures var r := RunUntilFailure(Answers(opts, t), Plan(opts, t, names));
      forall k :: 0 <= k < |r.calls| && r.calls[k].DeleteVersion? ==> IsDanglingDeletion(opts, t, names, r.calls[k])
  {
    var plan := Plan(opts, t, names);
    RunUntilFailureStopsAtFirstFailure(Answers(opts, t), plan);
    var r := RunUntilFailure(Answers(opts, t), plan);
    forall k | 0 <= k < |r.calls| && r.calls[k].DeleteVersion?
      ensures IsDanglingDeletion(opts, t, names, r.calls[k])
    {
      assert r.calls[k] == plan[k];
      PlanDeletesOnlyDangling(opts, t, names, k);
    }
  }

  /** Whatever the transport answers, each deletion a run issues comes after
      the listing of its package (at the returned position `m` of the run's
      calls), with only deletions of that package in between: a package's
      deletions are all issued before the next package is listed. */
  lemma RunDeletesFollowTheirListing(opts: RunOptions, t: Transport, names: seq<string>, k: nat)
    returns (m: nat)
    requires var r := RunUntilFailure(Answers(opts, t), Plan(opts, t, names));
      k < |r.calls| && r.calls[k].DeleteVersion?
    ensures var calls := RunUntilFailure(Answers(opts, t), Plan(opts, t, names)).calls;
      && m < k && calls[m] == ListVersions(calls[k].package)
      && forall i :: m < i < k ==> calls[i].DeleteVersion? && calls[i].package == calls[k].package
  {
    var plan := Plan(opts, t, names);
    RunUntilFailureStopsAtFirstFailure(Answers(opts, t), plan);
    var calls := RunUntilFailure(Answers(opts, t), plan).calls;
    assert forall i :: 0 <= i < |calls| ==> calls[i] == plan[i];
    m := PlanDeletesFollowTheirListing(opts, t, names, k);
  }
}
