/**
 * The catalogue of past runs (RollbackManager.list_runs): every readable run_*.json file in
 * the work directory's sub-directories, newest run first.
 */
module RunCatalog {
  import opened Results
  import opened Text

  const WorkDir := "work"

  /** The members of a run log that list_runs reads; None where the member is missing. */
  datatype RunData = RunData(runId: Option<string>, createdAt: Option<string>, profile: Option<string>, scenario: Option<string>)

  /** A directory entry of a profile_scenario directory: its name, and its JSON content when it can be read. */
  datatype RunFile = RunFile(name: string, content: Option<RunData>)

  /** An entry of the work directory: a directory with its listing, or anything else. */
  datatype WorkEntry = Dir(name: string, files: seq<RunFile>) | NotDir(name: string)

  /** One row of the catalogue. */
  datatype RunInfo = RunInfo(runId: string, createdAt: string, profile: string, scenario: string, filePath: string)

  /** data.get(key, default) */
  function Get(o: Option<string>, default: string): string {
    if o.Some? then o.value else default
  }

  /** os.path.join on a POSIX system. */
  function Join(a: string, b: string): string {
    a + "/" + b
  }

  predicate IsRunLogName(f: string) {
    StartsWith(f, "run_") && EndsWith(f, ".json")
  }

  /** The catalogue row of one file, or None when the file is not a readable run log. */
  function InfoOf(dir: string, f: RunFile): (r: Option<RunInfo>)
    ensures r.Some? <==> IsRunLogName(f.name) && f.content.Some?
    ensures r.Some? ==> r.value.filePath == Join(Join(WorkDir, dir), f.name)
  {
    if !IsRunLogName(f.name) || f.content.None? then None
    else
      var d := f.content.value;
      Some(RunInfo(Get(d.runId, ""), Get(d.createdAt, ""), Get(d.profile, "N/A"), Get(d.scenario, "N/A"),
                   Join(Join(WorkDir, dir), f.name)))
  }

  /** The rows of one directory's files, in listing order. */
  function DirRuns(dir: string, files: seq<RunFile>): seq<RunInfo>
    decreases |files|
  {
    if files == [] then []
    else
      var init := files[..|files| - 1];
      var info := InfoOf(dir, files[|files| - 1]);
      DirRuns(dir, init) + (if info.Some? then [info.value] else [])
  }

  /** The rows of all directories, in listing order, before sorting. */
  function Collected(entries: seq<WorkEntry>): seq<RunInfo>
    decreases |entries|
  {
    if entries == [] then []
    else
      var init := entries[..|entries| - 1];
      var e := entries[|entries| - 1];
      Collected(init) + (if e.Dir? then DirRuns(e.name, e.files) else [])
  }

  /** Every collected row comes from a readable run_*.json file of a directory of the work directory. */
  lemma {:induction false} CollectedFromRunLogs(entries: seq<WorkEntry>)
    ensures forall r :: r in Collected(entries) ==>
      exists i, j :: 0 <= i < |entries| && entries[i].Dir? && 0 <= j < |entries[i].files| &&
        InfoOf(entries[i].name, entries[i].files[j]) == Some(r)
    decreases |entries|
  {
    if entries != [] {
      var n := |entries| - 1;
      var init := entries[..n];
      CollectedFromRunLogs(init);
      forall r | r in Collected(entries)
        ensures exists i, j :: (0 <= i < |entries| && entries[i].Dir? && 0 <= j < |entries[i].files| &&
          InfoOf(entries[i].name, entries[i].files[j]) == Some(r))
      {
        if r in Collected(init) {
          var i, j :| 0 <= i < |init| && init[i].Dir? && 0 <= j < |init[i].files| && InfoOf(init[i].name, init[i].files[j]) == Some(r);
          assert init[i] == entries[i];
        } else {
          DirRunsFrom(entries[n].name, entries[n].files);
          var j :| 0 <= j < |entries[n].files| && InfoOf(entries[n].name, entries[n].files[j]) == Some(r);
        }
      }
    } else {
      assert Collected(entries) == [];
    }
  }

  lemma {:induction false} DirRunsFrom(dir: string, files: seq<RunFile>)
    ensures forall r :: r in DirRuns(dir, files) ==> exists j :: 0 <= j < |files| && InfoOf(dir, files[j]) == Some(r)
    decreases |files|
  {
    if files != [] {
      var n := |files| - 1;
      var init := files[..n];
      DirRunsFrom(dir, init);
      forall r | r in DirRuns(dir, files) ensures exists j :: 0 <= j < |files| && InfoOf(dir, files[j]) == Some(r) {
        if r in DirRuns(dir, init) {
          var j :| 0 <= j < |init| && InfoOf(dir, init[j]) == Some(r);
          assert init[j] == files[j];
        } else {
          assert InfoOf(dir, files[n]) == Some(r);
        }
      }
    } else {
      assert DirRuns(dir, files) == [];
    }
  }

  /** Every readable run_*.json file of a directory of the work directory gives a collected row. */
  lemma {:induction false} RunLogsCollected(entries: seq<WorkEntry>)
    ensures forall i, j ::
      (0 <= i < |entries| && entries[i].Dir? && 0 <= j < |entries[i].files| && InfoOf(entries[i].name, entries[i].files[j]).Some?) ==>
        InfoOf(entries[i].name, entries[i].files[j]).value in Collected(entries)
    decreases |entries|
  {
    if entries != [] {
      var n := |entries| - 1;
      var init := entries[..n];
      RunLogsCollected(init);
      forall i, j | 0 <= i < |entries| && entries[i].Dir? && 0 <= j < |entries[i].files| &&
        InfoOf(entries[i].name, entries[i].files[j]).Some?
        ensures InfoOf(entries[i].name, entries[i].files[j]).value in Collected(entries)
      {
        if i < n {
          assert init[i] == entries[i];
        } else {
          RunLogsInDir(entries[n].name, entries[n].files, j);
        }
      }
    }
  }

  lemma {:induction false} RunLogsInDir(dir: string, files: seq<RunFile>, j: nat)
    requires j < |files| && InfoOf(dir, files[j]).Some?
    ensures InfoOf(dir, files[j]).value in DirRuns(dir, files)
    decreases |files|
  {
    var n := |files| - 1;
    if j < n {
      assert files[..n][j] == files[j];
      RunLogsInDir(dir, files[..n], j);
    }
  }

  /** Newest first: no row has a smaller run_id than a later row. */
  predicate SortedDesc(s: seq<RunInfo>) {
    forall i, j :: 0 <= i < j < |s| ==> !LexLess(s[i].runId, s[j].runId)
  }

  /** x placed after every row whose run_id is not smaller than its own. */
  function InsertDesc(x: RunInfo, s: seq<RunInfo>): seq<RunInfo>
    decreases |s|
  {
    if s == [] then [x]
    else if LexLess(s[0].runId, x.runId) then [x] + s
    else [s[0]] + InsertDesc(x, s[1..])
  }

  /** runs.sort(key=lambda x: x["run_id"], reverse=True): a stable sort, newest first. */
  function SortRuns(s: seq<RunInfo>): seq<RunInfo>
    decreases |s|
  {
    if s == [] then [] else InsertDesc(s[|s| - 1], SortRuns(s[..|s| - 1]))
  }

  /** The rows with a given run_id, in order. */
  function WithId(s: seq<RunInfo>, id: string): seq<RunInfo>
    decreases |s|
  {
    if s == [] then []
    else (if s[0].runId == id then [s[0]] else []) + WithId(s[1..], id)
  }

  lemma {:induction false} WithIdAppend(a: seq<RunInfo>, b: seq<RunInfo>, id: string)
    ensures WithId(a + b, id) == WithId(a, id) + WithId(b, id)
    decreases |a|
  {
    if a == [] {
      assert a + b == b;
    } else {
      var head := if a[0].runId == id then [a[0]] else [];
      assert (a + b)[0] == a[0] && (a + b)[1..] == a[1..] + b;
      assert WithId(a + b, id) == head + WithId(a[1..] + b, id);
      WithIdAppend(a[1..], b, id);
      assert WithId(a, id) == head + WithId(a[1..], id);
    }
  }

  lemma {:induction false} InsertDescPermutes(x: RunInfo, s: seq<RunInfo>)
    ensures multiset(InsertDesc(x, s)) == multiset(s) + multiset{x}
    decreases |s|
  {
    if s != [] && !LexLess(s[0].runId, x.runId) {
      InsertDescPermutes(x, s[1..]);
      assert s == [s[0]] + s[1..];
    }
  }

  lemma {:induction false} InsertDescSorted(x: RunInfo, s: seq<RunInfo>)
    requires SortedDesc(s)
    ensures SortedDesc(InsertDesc(x, s))
    decreases |s|
  {
    if s != [] && !LexLess(s[0].runId, x.runId) {
      var tail := s[1..];
      assert SortedDesc(tail);
      InsertDescSorted(x, tail);
      assert forall k :: 0 <= k < |tail| ==> tail[k] == s[k + 1];
      InsertDescBelow(x, tail, s[0].runId);
      var ins := InsertDesc(x, tail);
      var r := [s[0]] + ins;
      assert r == InsertDesc(x, s);
      forall i, j | 0 <= i < j < |r| ensures !LexLess(r[i].runId, r[j].runId) {
        assert r[j] == ins[j - 1];
        if 0 < i {
          assert r[i] == ins[i - 1];
        }
      }
    } else if s != [] {
      var r := [x] + s;
      forall i, j | 0 <= i < j < |r| ensures !LexLess(r[i].runId, r[j].runId) {
        if i == 0 {
          NotAboveHead(x, s, j - 1);
        } else {
          assert r[i] == s[i - 1] && r[j] == s[j - 1];
        }
      }
    }
  }

  /** Inserting a row no greater than `top` into rows no greater than `top` gives rows no greater than `top`. */
  lemma {:induction false} InsertDescBelow(x: RunInfo, s: seq<RunInfo>, top: string)
    requires forall k :: 0 <= k < |s| ==> !LexLess(top, s[k].runId)
    requires !LexLess(top, x.runId)
    ensures forall k :: 0 <= k < |InsertDesc(x, s)| ==> !LexLess(top, InsertDesc(x, s)[k].runId)
    decreases |s|
  {
    if s != [] && !LexLess(s[0].runId, x.runId) {
      assert forall k :: 0 <= k < |s[1..]| ==> s[1..][k] == s[k + 1];
      InsertDescBelow(x, s[1..], top);
      var r := InsertDesc(x, s);
      assert r == [s[0]] + InsertDesc(x, s[1..]);
      assert forall k :: 0 < k < |r| ==> r[k] == InsertDesc(x, s[1..])[k - 1];
    } else if s != [] {
      var r := InsertDesc(x, s);
      assert r == [x] + s;
      assert forall k :: 0 < k < |r| ==> r[k] == s[k - 1];
    }
  }

  /** A row whose run_id exceeds the head of a newest-first sequence exceeds every row of it. */
  lemma {:induction false} NotAboveHead(x: RunInfo, s: seq<RunInfo>, k: nat)
    requires SortedDesc(s) && k < |s| && LexLess(s[0].runId, x.runId)
    ensures !LexLess(x.runId, s[k].runId)
  {
    LexLessAsymmetric(s[0].runId, x.runId);
    if k > 0 {
      assert !LexLess(s[0].runId, s[k].runId);
      LexLessTotal(s[0].runId, s[k].runId);
      if LexLess(x.runId, s[k].runId) && s[k].runId != s[0].runId {
        LexLessTransitive(x.runId, s[k].runId, s[0].runId);
      }
    }
  }

  lemma {:induction false} LexLessAsymmetric(a: string, b: string)
    requires LexLess(a, b)
    ensures !LexLess(b, a)
  {
    if LexLess(b, a) {
      LexLessTransitive(a, b, a);
      LexLessIrreflexive(a);
    }
  }

  /** Inserting x keeps the rows with x's run_id in order, x last among them. */
  lemma {:induction false} InsertDescStable(x: RunInfo, s: seq<RunInfo>, id: string)
    requires SortedDesc(s)
    ensures WithId(InsertDesc(x, s), id) == WithId(s, id) + (if x.runId == id then [x] else [])
    decreases |s|
  {
    if s == [] {
      assert WithId([x], id) == (if x.runId == id then [x] else []) + WithId([], id);
    } else if LexLess(s[0].runId, x.runId) {
      assert InsertDesc(x, s) == [x] + s;
      WithIdAppend([x], s, id);
      var mine := if x.runId == id then [x] else [];
      assert WithId([x], id) == mine + WithId([], id);
      assert WithId([x], id) == mine;
      if x.runId == id {
        NoneBelow(s, x.runId);
        assert WithId([x] + s, id) == [x] + [];
      } else {
        assert WithId([x] + s, id) == [] + WithId(s, id);
      }
    } else {
      assert SortedDesc(s[1..]);
      InsertDescStable(x, s[1..], id);
      var r := InsertDesc(x, s);
      assert r == [s[0]] + InsertDesc(x, s[1..]);
      assert r[0] == s[0] && r[1..] == InsertDesc(x, s[1..]);
      var head := if s[0].runId == id then [s[0]] else [];
      assert WithId(r, id) == head + WithId(InsertDesc(x, s[1..]), id);
      assert WithId(s, id) == head + WithId(s[1..], id);
    }
  }

  /** In a newest-first sequence that starts below id, no row has run_id id. */
  lemma {:induction false} NoneBelow(s: seq<RunInfo>, id: string)
    requires SortedDesc(s) && s != [] && LexLess(s[0].runId, id)
    ensures WithId(s, id) == []
  {
    forall k | 0 <= k < |s| ensures s[k].runId != id {
      if k == 0 {
        LexLessIrreflexive(id);
      } else {
        assert !LexLess(s[0].runId, s[k].runId);
      }
    }
    NoneWithId(s, id);
  }

  lemma {:induction false} NoneWithId(s: seq<RunInfo>, id: string)
    requires forall k :: 0 <= k < |s| ==> s[k].runId != id
    ensures WithId(s, id) == []
    decreases |s|
  {
    if s != [] {
      NoneWithId(s[1..], id);
    }
  }

  /** The sort orders the rows newest first. */
  lemma {:induction false} SortRunsSorted(s: seq<RunInfo>)
    ensures SortedDesc(SortRuns(s))
    decreases |s|
  {
    if s != [] {
      SortRunsSorted(s[..|s| - 1]);
      InsertDescSorted(s[|s| - 1], SortRuns(s[..|s| - 1]));
    }
  }

  /** The sort keeps every row. */
  lemma {:induction false} SortRunsPermutes(s: seq<RunInfo>)
    ensures multiset(SortRuns(s)) == multiset(s)
    decreases |s|
  {
    if s != [] {
      var n := |s| - 1;
      SortRunsPermutes(s[..n]);
      InsertDescPermutes(s[n], SortRuns(s[..n]));
      assert s == s[..n] + [s[n]];
    }
  }

  /** The sort keeps rows of equal run_id in listing order, as Python's stable sort does. */
  lemma {:induction false} SortRunsStable(s: seq<RunInfo>, id: string)
    ensures WithId(SortRuns(s), id) == WithId(s, id)
    decreases |s|
  {
    if s != [] {
      var n := |s| - 1;
      var init := s[..n];
      SortRunsStable(init, id);
      SortRunsSorted(init);
      InsertDescStable(s[n], SortRuns(init), id);
      assert s == init + [s[n]];
      WithIdAppend(init, [s[n]], id);
      assert WithId([s[n]], id) == (if s[n].runId == id then [s[n]] else []) + WithId([], id);
    }
  }

  /**
   * list_runs: None when the work directory does not exist, otherwise its entries as listed.
   * Scans every sub-directory's run_*.json files, skips those that cannot be read, and sorts
   * the rows newest first.
   */
  method ListRuns(work: Option<seq<WorkEntry>>) returns (runs: seq<RunInfo>)
    ensures work.None? ==> runs == []
    ensures work.Some? ==> runs == SortRuns(Collected(work.value))
  {
    if work.None? {
      return [];
    }
    var entries := work.value;
    var found: seq<RunInfo> := [];
    var i := 0;
    while i < |entries|
      invariant 0 <= i <= |entries|
      invariant found == Collected(entries[..i])
    {
      var e := entries[i];
      assert entries[..i + 1][..i] == entries[..i];
      if e.Dir? {
        var j := 0;
        ghost var before := found;
        while j < |e.files|
          invariant 0 <= j <= |e.files|
          invariant found == before + DirRuns(e.name, e.files[..j])
        {
          var f := e.files[j];
          assert e.files[..j + 1][..j] == e.files[..j];
          if IsRunLogName(f.name) && f.content.Some? {
            var d := f.content.value;
            found := found + [RunInfo(Get(d.runId, ""), Get(d.createdAt, ""), Get(d.profile, "N/A"), Get(d.scenario, "N/A"),
                                      Join(Join(WorkDir, e.name), f.name))];
          }
          j := j + 1;
        }
        assert e.files[..j] == e.files;
      }
      i := i + 1;
    }
    assert entries[..i] == entries;
    runs := SortRuns(found);
  }
}
