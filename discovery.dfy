/** Fan-out of `discover_stopped_instances`: one scan task per (region,
    compartment) pair in region-major order, and the merge of the per-task
    results with every instance stamped with its task's region. The thread
    pool is replaced by a loop over the tasks in task order. */
module Discovery {
  import opened Model
  import opened Retry

  /** For each region and compartment id, the outcomes of the successive
      `list_instances` calls of that scan. */
  type ScanReplies = (string, string) -> (nat -> CallOutcome)

  /** The tasks of one region, in compartment order. */
  function Row(region: string, compartmentIds: seq<string>): seq<(string, string)> {
    seq(|compartmentIds|, j requires 0 <= j < |compartmentIds| => (region, compartmentIds[j]))
  }

  /** The task list: regions × compartment ids, region-major. */
  function Tasks(regions: seq<string>, compartmentIds: seq<string>): (tasks: seq<(string, string)>)
    ensures forall t :: t in tasks ==> t.0 in regions && t.1 in compartmentIds
  {
    if regions == [] then []
    else
      var init := regions[..|regions| - 1];
      assert forall r :: r in init ==> r in regions;
      Tasks(init, compartmentIds) + Row(regions[|regions| - 1], compartmentIds)
  }

  lemma RowMajorBound(i: nat, j: nat, n: nat, c: nat)
    requires i < n && j < c
    ensures i * c + j < n * c
  {
    assert (i + 1) * c <= n * c;
  }

  lemma {:induction false} TasksLength(regions: seq<string>, compartmentIds: seq<string>)
    ensures |Tasks(regions, compartmentIds)| == |regions| * |compartmentIds|
  {
    if regions != [] {
      var n, c := |regions|, |compartmentIds|;
      TasksLength(regions[..n - 1], compartmentIds);
      assert (n - 1) * c + c == n * c;
    }
  }

  /** The task list is region-major: it has |R|·|C| entries, and entry
      i·|C| + j is (R[i], C[j]). */
  lemma {:induction false} TaskCell(regions: seq<string>, compartmentIds: seq<string>, i: nat, j: nat)
    requires i < |regions| && j < |compartmentIds|
    ensures |Tasks(regions, compartmentIds)| == |regions| * |compartmentIds|
    ensures i * |compartmentIds| + j < |Tasks(regions, compartmentIds)|
    ensures Tasks(regions, compartmentIds)[i * |compartmentIds| + j] == (regions[i], compartmentIds[j])
  {
    var n, c := |regions|, |compartmentIds|;
    var init := regions[..n - 1];
    var front, row := Tasks(init, compartmentIds), Row(regions[n - 1], compartmentIds);
    assert Tasks(regions, compartmentIds) == front + row;
    TasksLength(regions, compartmentIds);
    TasksLength(init, compartmentIds);
    RowMajorBound(i, j, n, c);
    if i < n - 1 {
      TaskCell(init, compartmentIds, i, j);
      assert init[i] == regions[i];
    } else {
      assert i * c == |front|;
    }
  }

  /** The nested loops that build `tasks`. */
  method BuildTasks(regions: seq<string>, compartmentIds: seq<string>) returns (tasks: seq<(string, string)>)
    ensures tasks == Tasks(regions, compartmentIds)
    ensures |tasks| == |regions| * |compartmentIds|
  {
    tasks := [];
    for i := 0 to |regions|
      invariant tasks == Tasks(regions[..i], compartmentIds)
    {
      for j := 0 to |compartmentIds|
        invariant tasks == Tasks(regions[..i], compartmentIds) + Row(regions[i], compartmentIds[..j])
      {
        assert Row(regions[i], compartmentIds[..j + 1]) == Row(regions[i], compartmentIds[..j]) + [(regions[i], compartmentIds[j])];
        tasks := tasks + [(regions[i], compartmentIds[j])];
      }
      assert compartmentIds[..|compartmentIds|] == compartmentIds;
      assert regions[..i + 1][..i] == regions[..i];
    }
    assert regions[..|regions|] == regions;
    TasksLength(regions, compartmentIds);
  }

  /** `instance.region = region` for every instance of one task's result. */
  function Stamp(instances: seq<RawInstance>, region: string): seq<RawInstance> {
    seq(|instances|, k requires 0 <= k < |instances| => instances[k].(region := Some(region)))
  }

  /** The instances the scans of `tasks` yield, concatenated in task order. */
  function Merged(tasks: seq<(string, string)>, replies: ScanReplies): (all: seq<RawInstance>)
    ensures forall x :: x in all ==> exists t :: t in tasks && x.region == Some(t.0)
  {
    if tasks == [] then []
    else
      var init, t := tasks[..|tasks| - 1], tasks[|tasks| - 1];
      assert forall t' :: t' in init ==> t' in tasks;
      Merged(init, replies) + Stamp(FetchInstances(replies(t.0, t.1)), t.0)
  }

  lemma {:induction false} MergedConcat(a: seq<(string, string)>, b: seq<(string, string)>, replies: ScanReplies)
    ensures Merged(a + b, replies) == Merged(a, replies) + Merged(b, replies)
    decreases |b|
  {
    if b == [] {
      assert a + b == a;
    } else {
      var init, t := b[..|b| - 1], b[|b| - 1];
      assert (a + b)[..|a + b| - 1] == a + init;
      assert (a + b)[|a + b| - 1] == t;
      var tail := Stamp(FetchInstances(replies(t.0, t.1)), t.0);
      assert Merged(a + b, replies) == Merged(a + init, replies) + tail;
      assert Merged(b, replies) == Merged(init, replies) + tail;
      MergedConcat(a, init, replies);
    }
  }

  /** Every merged instance is one that the scan of some task returned,
      with `region` set to that task's region. */
  lemma {:induction false} MergedRegions(tasks: seq<(string, string)>, replies: ScanReplies)
    ensures forall x :: x in Merged(tasks, replies) ==>
      exists t, y :: t in tasks && y in FetchInstances(replies(t.0, t.1)) && x == y.(region := Some(t.0))
  {
    if tasks != [] {
      var init, t := tasks[..|tasks| - 1], tasks[|tasks| - 1];
      MergedRegions(init, replies);
      var found := FetchInstances(replies(t.0, t.1));
      var stamped := Stamp(found, t.0);
      assert Merged(tasks, replies) == Merged(init, replies) + stamped;
      forall x | x in Merged(tasks, replies)
        ensures exists t', y :: t' in tasks && y in FetchInstances(replies(t'.0, t'.1)) && x == y.(region := Some(t'.0))
      {
        if x in Merged(init, replies) {
          var t', y :| t' in init && y in FetchInstances(replies(t'.0, t'.1)) && x == y.(region := Some(t'.0));
          assert t' in tasks;
        } else {
          var k :| 0 <= k < |stamped| && stamped[k] == x;
          assert found[k] in found && x == found[k].(region := Some(t.0));
          assert t in tasks;
        }
      }
    }
  }

  /** A scan that yields nothing (every attempt failed) leaves the other scans'
      results exactly as they would be without it. */
  lemma FailedScanIsSkipped(a: seq<(string, string)>, t: (string, string), b: seq<(string, string)>, replies: ScanReplies)
    requires FetchInstances(replies(t.0, t.1)) == []
    ensures Merged(a + [t] + b, replies) == Merged(a + b, replies)
  {
    MergedConcat(a + [t], b, replies);
    MergedConcat(a, [t], replies);
    MergedConcat(a, b, replies);
    assert [t][..0] == [];
  }

  /** The collection loop: scan each task with retries, stamp its region, append. */
  method CollectScans(tasks: seq<(string, string)>, replies: ScanReplies) returns (all: seq<RawInstance>)
    ensures all == Merged(tasks, replies)
    ensures forall x :: x in all ==>
      exists t, y :: t in tasks && y in FetchInstances(replies(t.0, t.1)) && x == y.(region := Some(t.0))
  {
    all := [];
    for i := 0 to |tasks|
      invariant all == Merged(tasks[..i], replies)
    {
      var (region, compartmentId) := tasks[i];
      var instances, _ := GetStoppedInstancesWithRetry(replies(region, compartmentId));
      var stamped := [];
      for k := 0 to |instances|
        invariant stamped == Stamp(instances[..k], region)
      {
        stamped := stamped + [instances[k].(region := Some(region))];
      }
      assert instances[..|instances|] == instances;
      all := all + stamped;
      assert tasks[..i + 1][..i] == tasks[..i];
    }
    assert tasks[..|tasks|] == tasks;
    MergedRegions(tasks, replies);
  }
}
