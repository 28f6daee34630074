/** Merging the workers' traces into one sorted trace, and splitting it again by agent. */
module TraceMerge {
  import opened Prelude

  datatype Kind = Metadata | Action | Event | Summary | OtherKind

  /** time: the start of an action, the timestamp of anything else, if it is a number. */
  datatype Record = Record(kind: Kind, time: Option<real>, agent: Option<string>, body: string)

  datatype Line = Blank | Garbage | Valid(record: Record)

  datatype Error = MissingFile(file: nat) | InvalidLine(file: nat)

  // ------------------------------------------------------------------ sort key

  datatype Time = At(s: real) | Never

  datatype Keyed = Keyed(time: Time, rank: nat, sequence: nat, record: Record)

  /** Without a time an event sorts as time zero, everything else after all times. */
  function KeyOf(r: Record, sequence: nat): Keyed {
    var rank := if r.kind.Action? then 0 else if r.kind.Event? then 1 else if r.kind.Summary? then 2 else 3;
    var time := if r.time.Some? then At(r.time.value) else if r.kind.Event? then At(0.0) else Never;
    Keyed(time, rank, sequence, r)
  }

  predicate Earlier(a: Time, b: Time) {
    a.At? && (b.Never? || a.s < b.s)
  }

  predicate Before(a: Keyed, b: Keyed) {
    Earlier(a.time, b.time) ||
    (a.time == b.time && (a.rank < b.rank || (a.rank == b.rank && a.sequence < b.sequence)))
  }

  ghost predicate Ascending(s: seq<Keyed>) {
    forall i, j :: 0 <= i < j < |s| ==> Before(s[i], s[j])
  }

  function Numbered(records: seq<Record>): (s: seq<Keyed>)
    ensures |s| == |records| && forall i :: 0 <= i < |s| ==> s[i] == KeyOf(records[i], i)
  {
    seq(|records|, i requires 0 <= i < |records| => KeyOf(records[i], i))
  }

  function Insert(x: Keyed, s: seq<Keyed>): seq<Keyed> {
    if s == [] || Before(x, s[0]) then [x] + s else [s[0]] + Insert(x, s[1..])
  }

  function Sort(s: seq<Keyed>): seq<Keyed> {
    if s == [] then [] else Insert(s[0], Sort(s[1..]))
  }

  function RecordsOf(s: seq<Keyed>): (records: seq<Record>)
    ensures |records| == |s| && forall i :: 0 <= i < |s| ==> records[i] == s[i].record
  {
    seq(|s|, i requires 0 <= i < |s| => s[i].record)
  }

  /** The combined trace of the collected records. */
  function Merge(records: seq<Record>): seq<Record> {
    RecordsOf(Sort(Numbered(records)))
  }

  lemma {:induction false} InsertPermutes(x: Keyed, s: seq<Keyed>)
    ensures multiset(Insert(x, s)) == multiset(s) + multiset{x}
  {
    if s == [] || Before(x, s[0]) {
    } else {
      InsertPermutes(x, s[1..]);
      assert s == [s[0]] + s[1..];
    }
  }

  lemma {:induction false} SortPermutes(s: seq<Keyed>)
    ensures multiset(Sort(s)) == multiset(s)
  {
    if s == [] {
    } else {
      SortPermutes(s[1..]);
      InsertPermutes(s[0], Sort(s[1..]));
      assert s == [s[0]] + s[1..];
    }
  }

  ghost predicate Differs(x: Keyed, s: seq<Keyed>) {
    forall i :: 0 <= i < |s| ==> s[i].sequence != x.sequence
  }

  lemma {:induction false} InsertAscends(x: Keyed, s: seq<Keyed>)
    requires Ascending(s) && Differs(x, s)
    ensures Ascending(Insert(x, s))
  {
    if s == [] || Before(x, s[0]) {
    } else {
      var rest := Insert(x, s[1..]);
      InsertAscends(x, s[1..]);
      InsertPermutes(x, s[1..]);
      forall j | 0 <= j < |rest|
        ensures Before(s[0], rest[j])
      {
        assert rest[j] in multiset(rest);
        if rest[j] != x {
          assert rest[j] in s[1..];
        }
      }
    }
  }

  lemma {:induction false} SortAscends(s: seq<Keyed>)
    requires forall i, j :: 0 <= i < j < |s| ==> s[i].sequence != s[j].sequence
    ensures Ascending(Sort(s))
  {
    if s == [] {
    } else {
      var rest := Sort(s[1..]);
      SortAscends(s[1..]);
      SortPermutes(s[1..]);
      forall i | 0 <= i < |rest|
        ensures rest[i].sequence != s[0].sequence
      {
        assert rest[i] in multiset(rest);
        assert rest[i] in s[1..];
      }
      InsertAscends(s[0], rest);
    }
  }

  lemma SameFirst(a: seq<Keyed>, b: seq<Keyed>)
    requires a != [] && b != [] && Ascending(a) && Ascending(b) && multiset(a) == multiset(b)
    ensures a[0] == b[0]
  {
    assert a[0] in multiset(b) && b[0] in multiset(a);
    var i :| 0 <= i < |a| && a[i] == b[0];
    var j :| 0 <= j < |b| && b[j] == a[0];
    assert i == 0 || Before(a[0], a[i]);
    assert j == 0 || Before(b[0], b[j]);
  }

  lemma SameRest(a: seq<Keyed>, b: seq<Keyed>)
    requires a != [] && b != [] && a[0] == b[0] && multiset(a) == multiset(b)
    ensures multiset(a[1..]) == multiset(b[1..])
  {
    assert a == [a[0]] + a[1..] && b == [b[0]] + b[1..];
    assert multiset(a[1..]) == multiset(a) - multiset{a[0]} && multiset(b[1..]) == multiset(b) - multiset{b[0]};
  }

  lemma SameLength(a: seq<Keyed>, b: seq<Keyed>)
    requires multiset(a) == multiset(b)
    ensures |a| == |b|
  {
    assert |multiset(a)| == |a| && |multiset(b)| == |b|;
  }

  /** There is only one way to put distinct keys in order. */
  lemma {:induction false} OrderIsUnique(a: seq<Keyed>, b: seq<Keyed>)
    requires Ascending(a) && Ascending(b) && multiset(a) == multiset(b)
    ensures a == b
  {
    SameLength(a, b);
    if a == [] {
    } else {
      SameFirst(a, b);
      SameRest(a, b);
      OrderIsUnique(a[1..], b[1..]);
      assert a == [a[0]] + a[1..] && b == [b[0]] + b[1..];
    }
  }

  // ---------------------------------------------------------------- collecting

  function Kept(lines: seq<Line>): seq<Record> {
    if lines == [] then []
    else
      var last := lines[|lines| - 1];
      Kept(lines[..|lines| - 1]) + if last.Valid? && !last.record.kind.Metadata? then [last.record] else []
  }

  predicate Readable(file: Option<seq<Line>>) {
    file.Some? && Garbage !in file.value
  }

  function LinesOf(file: Option<seq<Line>>): seq<Line> {
    if file.Some? then file.value else []
  }

  function AllKept(files: seq<Option<seq<Line>>>, n: nat): seq<Record>
    requires n <= |files|
  {
    if n == 0 then [] else AllKept(files, n - 1) + Kept(LinesOf(files[n - 1]))
  }

  /** How many lines of the first n files hold a record. */
  function LinesWith(files: seq<Option<seq<Line>>>, n: nat, r: Record): nat
    requires n <= |files|
  {
    if n == 0 then 0
    else LinesWith(files, n - 1, r) + multiset(LinesOf(files[n - 1]))[Valid(r)]
  }

  lemma {:induction false} KeptCounts(lines: seq<Line>, r: Record)
    ensures multiset(Kept(lines))[r] == if r.kind.Metadata? then 0 else multiset(lines)[Valid(r)]
  {
    if lines == [] {
    } else {
      KeptCounts(lines[..|lines| - 1], r);
      assert lines == lines[..|lines| - 1] + [lines[|lines| - 1]];
    }
  }

  /** Collecting keeps every line that holds a record other than a header, and nothing else. */
  lemma {:induction false} CollectedCounts(files: seq<Option<seq<Line>>>, n: nat, r: Record)
    requires n <= |files|
    ensures multiset(AllKept(files, n))[r] == if r.kind.Metadata? then 0 else LinesWith(files, n, r)
  {
    if n == 0 {
    } else {
      CollectedCounts(files, n - 1, r);
      var lines := LinesOf(files[n - 1]);
      KeptCounts(lines, r);
      CountsAdd(AllKept(files, n), AllKept(files, n - 1), Kept(lines), r);
    }
  }

  lemma CountsAdd(all: seq<Record>, a: seq<Record>, b: seq<Record>, r: Record)
    requires all == a + b
    ensures multiset(all)[r] == multiset(a)[r] + multiset(b)[r]
  {
  }

  /** The workers' records with their sort keys; None is a file that does not exist. */
  method CollectRecords(files: seq<Option<seq<Line>>>) returns (r: Result<seq<Keyed>, Error>)
    ensures r.Ok? <==> forall i :: 0 <= i < |files| ==> Readable(files[i])
    ensures r.Ok? ==> r.value == Numbered(AllKept(files, |files|))
    ensures r.Err? ==> r.error.file < |files| && forall i :: 0 <= i < r.error.file ==> Readable(files[i])
    ensures r.Err? ==> if r.error.MissingFile? then files[r.error.file].None?
                       else files[r.error.file].Some? && Garbage in files[r.error.file].value
  {
    var records: seq<Keyed> := [];
    ghost var plain: seq<Record> := [];
    for f := 0 to |files|
      invariant forall i :: 0 <= i < f ==> Readable(files[i])
      invariant records == Numbered(plain) && plain == AllKept(files, f)
    {
      if files[f].None? {
        return Err(MissingFile(f));
      }
      var lines := files[f].value;
      for i := 0 to |lines|
        invariant Garbage !in lines[..i]
        invariant records == Numbered(plain) && plain == AllKept(files, f) + Kept(lines[..i])
      {
        assert lines[..i + 1] == lines[..i] + [lines[i]] && lines[..i + 1][..i] == lines[..i];
        if lines[i].Garbage? {
          assert Garbage in lines;
          return Err(InvalidLine(f));
        }
        if lines[i].Valid? && !lines[i].record.kind.Metadata? {
          records := records + [KeyOf(lines[i].record, |records|)];
          plain := plain + [lines[i].record];
        }
      }
      assert lines[..|lines|] == lines;
    }
    return Ok(records);
  }

  /** Merges the workers' files, and names the first that is missing or holds a line that cannot be read. */
  method CombineWorkerTraces(files: seq<Option<seq<Line>>>) returns (r: Result<seq<Record>, Error>)
    ensures r.Ok? <==> forall i :: 0 <= i < |files| ==> files[i].Some? && Garbage !in files[i].value
    ensures r.Ok? ==> r.value == Merge(AllKept(files, |files|))
    ensures r.Ok? ==> forall x: Record ::
      multiset(r.value)[x] == if x.kind.Metadata? then 0 else LinesWith(files, |files|, x)
    ensures r.Err? ==> r.error.file < |files|
    ensures r.Err? ==> forall i :: 0 <= i < r.error.file ==> files[i].Some? && Garbage !in files[i].value
    ensures r.Err? ==> if r.error.MissingFile? then files[r.error.file].None?
                       else files[r.error.file].Some? && Garbage in files[r.error.file].value
  {
    var collected := CollectRecords(files);
    match collected {
      case Err(e) => r := Err(e);
      case Ok(records) =>
        CombinedCounts(files);
        r := Ok(RecordsOf(Sort(records)));
    }
  }

  // ----------------------------------------------------------------- splitting

  predicate Belongs(r: Record, agent: string) {
    !r.kind.Metadata? && r.agent == Some(agent)
  }

  function OfAgent(records: seq<Record>, agent: string): seq<Record> {
    if records == [] then []
    else
      var last := records[|records| - 1];
      OfAgent(records[..|records| - 1], agent) + if Belongs(last, agent) then [last] else []
  }

  /** The header is the last one of the trace, if it has any. */
  ghost predicate IsLastHeader(trace: seq<Record>, header: Option<Record>) {
    match header
    case None => forall r :: r in trace ==> !r.kind.Metadata?
    case Some(last) =>
      exists i :: 0 <= i < |trace| && trace[i] == last && last.kind.Metadata?
        && forall j :: i < j < |trace| ==> !trace[j].kind.Metadata?
  }

  /**
   * One file for each agent with an output directory: its records in the order of the trace, under
   * the last header of the trace. What the header says of the session is written over per task.
   */
  method SplitTraceByAgent(trace: seq<Record>, agents: set<string>)
    returns (header: Option<Record>, files: map<string, seq<Record>>)
    ensures IsLastHeader(trace, header)
    ensures files.Keys == agents
    ensures forall a :: a in agents ==> files[a] == OfAgent(trace, a)
  {
    files := map a | a in agents :: [];
    header := None;
    for i := 0 to |trace|
      invariant IsLastHeader(trace[..i], header)
      invariant files.Keys == agents
      invariant forall a :: a in agents ==> files[a] == OfAgent(trace[..i], a)
    {
      var r := trace[i];
      OneMoreRecord(trace, i, header);
      if r.kind.Metadata? {
        header := Some(r);
      } else if r.agent.Some? && r.agent.value in files {
        files := files[r.agent.value := files[r.agent.value] + [r]];
      }
    }
    assert trace[..|trace|] == trace;
  }

  lemma OneMoreRecord(trace: seq<Record>, i: nat, header: Option<Record>)
    requires i < |trace| && IsLastHeader(trace[..i], header)
    ensures IsLastHeader(trace[..i + 1], if trace[i].kind.Metadata? then Some(trace[i]) else header)
    ensures forall a ::
      OfAgent(trace[..i + 1], a) == OfAgent(trace[..i], a) + if Belongs(trace[i], a) then [trace[i]] else []
  {
    assert trace[..i + 1] == trace[..i] + [trace[i]];
    assert trace[..i + 1][..i] == trace[..i] && trace[..i + 1][i] == trace[i];
  }

  // ------------------------------------------------------------------ the laws

  function KeyedOf(s: seq<Keyed>, agent: string): seq<Keyed> {
    if s == [] then []
    else
      var last := s[|s| - 1];
      KeyedOf(s[..|s| - 1], agent) + if Belongs(last.record, agent) then [last] else []
  }

  lemma {:induction false} FilterRecords(s: seq<Keyed>, agent: string)
    ensures OfAgent(RecordsOf(s), agent) == RecordsOf(KeyedOf(s, agent))
  {
    if s == [] {
    } else {
      FilterRecords(s[..|s| - 1], agent);
      assert RecordsOf(s)[..|s| - 1] == RecordsOf(s[..|s| - 1]);
    }
  }

  lemma {:induction false} FilterCounts(s: seq<Keyed>, agent: string, x: Keyed)
    ensures multiset(KeyedOf(s, agent))[x] == if Belongs(x.record, agent) then multiset(s)[x] else 0
  {
    if s == [] {
    } else {
      FilterCounts(s[..|s| - 1], agent, x);
      assert s == s[..|s| - 1] + [s[|s| - 1]];
    }
  }

  lemma {:induction false} FilterAscends(s: seq<Keyed>, agent: string)
    requires Ascending(s)
    ensures Ascending(KeyedOf(s, agent))
    ensures forall i :: 0 <= i < |KeyedOf(s, agent)| ==> KeyedOf(s, agent)[i] in s
  {
    if s == [] {
    } else {
      FilterAscends(s[..|s| - 1], agent);
    }
  }

  lemma MergedKeys(records: seq<Record>)
    ensures Ascending(Sort(Numbered(records))) && multiset(Sort(Numbered(records))) == multiset(Numbered(records))
  {
    SortAscends(Numbered(records));
    SortPermutes(Numbered(records));
  }

  lemma {:induction false} InsertKeepsRecords(x: Keyed, s: seq<Keyed>)
    ensures multiset(RecordsOf(Insert(x, s))) == multiset(RecordsOf(s)) + multiset{x.record}
  {
    if s == [] || Before(x, s[0]) {
      assert RecordsOf([x] + s) == [x.record] + RecordsOf(s);
    } else {
      InsertKeepsRecords(x, s[1..]);
      assert RecordsOf(Insert(x, s)) == [s[0].record] + RecordsOf(Insert(x, s[1..]));
      assert RecordsOf(s) == [s[0].record] + RecordsOf(s[1..]);
    }
  }

  lemma {:induction false} SortKeepsRecords(s: seq<Keyed>)
    ensures multiset(RecordsOf(Sort(s))) == multiset(RecordsOf(s))
  {
    if s == [] {
    } else {
      SortKeepsRecords(s[1..]);
      InsertKeepsRecords(s[0], Sort(s[1..]));
      assert RecordsOf(s) == [s[0].record] + RecordsOf(s[1..]);
    }
  }

  /** The merged trace loses, doubles and invents nothing. */
  lemma MergeIsPermutation(records: seq<Record>)
    ensures multiset(Merge(records)) == multiset(records)
  {
    SortKeepsRecords(Numbered(records));
    assert RecordsOf(Numbered(records)) == records;
  }

  lemma {:induction false} FileCounts(records: seq<Record>, agent: string, x: Record)
    ensures multiset(OfAgent(records, agent))[x] == if Belongs(x, agent) then multiset(records)[x] else 0
  {
    if records == [] {
    } else {
      FileCounts(records[..|records| - 1], agent, x);
      assert records == records[..|records| - 1] + [records[|records| - 1]];
    }
  }

  /** The combined trace holds each record that is no header as often as the workers' files do. */
  lemma CombinedCounts(files: seq<Option<seq<Line>>>)
    ensures forall x: Record ::
      multiset(Merge(AllKept(files, |files|)))[x] == if x.kind.Metadata? then 0 else LinesWith(files, |files|, x)
  {
    MergeIsPermutation(AllKept(files, |files|));
    forall x: Record
      ensures multiset(AllKept(files, |files|))[x] == if x.kind.Metadata? then 0 else LinesWith(files, |files|, x)
    {
      CollectedCounts(files, |files|, x);
    }
  }

  /** And so does each agent's file, after merging and splitting, of the agent's own records. */
  lemma FilesComeThrough(files: seq<Option<seq<Line>>>, agent: string, x: Record)
    ensures multiset(OfAgent(Merge(AllKept(files, |files|)), agent))[x] ==
      if x.kind.Metadata? || x.agent != Some(agent) then 0 else LinesWith(files, |files|, x)
  {
    CombinedCounts(files);
    FileCounts(Merge(AllKept(files, |files|)), agent, x);
  }

  /** Each agent's file holds exactly that agent's records. */
  lemma SplitLosesNothing(records: seq<Record>, agent: string)
    ensures multiset(OfAgent(Merge(records), agent)) == multiset(OfAgent(records, agent))
  {
    MergeIsPermutation(records);
    forall x
      ensures multiset(OfAgent(Merge(records), agent))[x] == multiset(OfAgent(records, agent))[x]
    {
      FileCounts(Merge(records), agent, x);
      FileCounts(records, agent, x);
    }
  }

  lemma SameKeysOfAgent(records: seq<Record>, agent: string)
    ensures multiset(KeyedOf(Sort(Numbered(records)), agent)) == multiset(KeyedOf(Numbered(records), agent))
  {
    MergedKeys(records);
    forall x
      ensures multiset(KeyedOf(Sort(Numbered(records)), agent))[x] == multiset(KeyedOf(Numbered(records), agent))[x]
    {
      FilterCounts(Sort(Numbered(records)), agent, x);
      FilterCounts(Numbered(records), agent, x);
    }
  }

  /** Merging and splitting leave an agent's records in their order exactly when that was key order. */
  lemma SplitGivesBackTheTrace(records: seq<Record>, agent: string)
    ensures KeyedOf(Sort(Numbered(records)), agent) == KeyedOf(Numbered(records), agent) <==>
            Ascending(KeyedOf(Numbered(records), agent))
    ensures Ascending(KeyedOf(Numbered(records), agent)) ==> OfAgent(Merge(records), agent) == OfAgent(records, agent)
  {
    var numbered := Numbered(records);
    var sorted := Sort(numbered);
    MergedKeys(records);
    SameKeysOfAgent(records, agent);
    FilterAscends(sorted, agent);
    if Ascending(KeyedOf(numbered, agent)) {
      OrderIsUnique(KeyedOf(sorted, agent), KeyedOf(numbered, agent));
      FilterRecords(sorted, agent);
      FilterRecords(numbered, agent);
      assert RecordsOf(numbered) == records;
    }
  }

  lemma MergedIsKeyed(records: seq<Record>, k: nat) returns (n: nat)
    requires k < |Merge(records)|
    ensures k < |Sort(Numbered(records))| && Sort(Numbered(records))[k] == KeyOf(Merge(records)[k], n)
    ensures n < |records| && records[n] == Merge(records)[k]
  {
    var sorted := Sort(Numbered(records));
    MergedKeys(records);
    assert sorted[k] in multiset(sorted);
    n :| 0 <= n < |records| && Numbered(records)[n] == sorted[k];
  }

  /** A summary without a time follows every action and every event of the merged trace. */
  lemma SummaryComesLast(records: seq<Record>, i: nat, j: nat)
    requires i < |Merge(records)| && j < |Merge(records)|
    requires Merge(records)[i].kind.Summary? && Merge(records)[i].time.None?
    requires Merge(records)[j].kind.Action? || Merge(records)[j].kind.Event?
    ensures j < i
  {
    MergedKeys(records);
    var m := MergedIsKeyed(records, i);
    var n := MergedIsKeyed(records, j);
  }

  /** An event without a time comes before all that happens after time zero. */
  lemma UntimedEventComesEarly(records: seq<Record>, i: nat, j: nat)
    requires i < |Merge(records)| && j < |Merge(records)|
    requires Merge(records)[i].kind.Event? && Merge(records)[i].time.None?
    requires Merge(records)[j].time.Some? && Merge(records)[j].time.value > 0.0
    ensures i < j
  {
    MergedKeys(records);
    var m := MergedIsKeyed(records, i);
    var n := MergedIsKeyed(records, j);
  }

  /** Records of one time keep the order action, event, summary, anything else. */
  lemma TiesGoByClass(records: seq<Record>, i: nat, j: nat)
    requires i < j < |Merge(records)|
    requires Merge(records)[i].time.Some? && Merge(records)[i].time == Merge(records)[j].time
    ensures Merge(records)[j].kind.Action? ==> Merge(records)[i].kind.Action?
    ensures Merge(records)[j].kind.Event? ==> Merge(records)[i].kind.Action? || Merge(records)[i].kind.Event?
    ensures Merge(records)[i].kind.OtherKind? ==> Merge(records)[j].kind.OtherKind? || Merge(records)[j].kind.Metadata?
  {
    MergedKeys(records);
    var m := MergedIsKeyed(records, i);
    var n := MergedIsKeyed(records, j);
  }

  /** Records of one time and class keep the order in which they were collected. */
  lemma TiesKeepTheirOrder(records: seq<Record>, i: nat, j: nat)
    requires i < j < |Merge(records)|
    requires var sorted := Sort(Numbered(records)); sorted[i].time == sorted[j].time && sorted[i].rank == sorted[j].rank
    ensures exists m: nat, n: nat :: m < n < |records| && records[m] == Merge(records)[i] && records[n] == Merge(records)[j]
  {
    MergedKeys(records);
    var sorted := Sort(Numbered(records));
    var m := MergedIsKeyed(records, i);
    var n := MergedIsKeyed(records, j);
    assert Before(sorted[i], sorted[j]);
    assert m < n;
  }
}
