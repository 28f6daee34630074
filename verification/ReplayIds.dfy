/** Names for replayed sessions that stay distinct when one source trace is replayed several times. */
module ReplayIds {
  import opened Prelude

  datatype Session = Session(sourceAgentId: string, manifestIndex: nat)

  // ---------------------------------------------------------- decimal numerals

  function DigitChar(d: nat): char
    requires d < 10
  {
    "0123456789"[d]
  }

  function Decimal(n: nat): string {
    if n < 10 then [DigitChar(n)] else Decimal(n / 10) + [DigitChar(n % 10)]
  }

  function Zeros(n: nat): string {
    seq(n, _ => '0')
  }

  /** Decimal notation, padded with zeros on the left. */
  function Padded(n: nat, width: nat): string {
    var d := Decimal(n);
    if |d| < width then Zeros(width - |d|) + d else d
  }

  lemma {:induction false} DecimalIsInjective(a: nat, b: nat)
    requires Decimal(a) == Decimal(b)
    ensures a == b
    decreases a
  {
    var da, db := Decimal(a), Decimal(b);
    assert da[|da| - 1] == DigitChar(a % 10) && db[|db| - 1] == DigitChar(b % 10);
    if a < 10 || b < 10 {
    } else {
      assert Decimal(a / 10) == da[..|da| - 1] && Decimal(b / 10) == db[..|db| - 1];
      DecimalIsInjective(a / 10, b / 10);
    }
  }

  /** The digit a character stands for; other characters count as zero. */
  function DigitOf(c: char): nat {
    if '0' <= c <= '9' then c as int - '0' as int else 0
  }

  /** The number a text of digits stands for. */
  function ValueOf(s: string): nat {
    if s == "" then 0 else 10 * ValueOf(s[..|s| - 1]) + DigitOf(s[|s| - 1])
  }

  lemma DigitsStand(d: nat)
    requires d < 10
    ensures DigitOf(DigitChar(d)) == d && '0' <= DigitChar(d) <= '9'
  {
  }

  lemma LastDigit(s: string, d: nat)
    requires d < 10
    ensures ValueOf(s + [DigitChar(d)]) == 10 * ValueOf(s) + d
  {
    DigitsStand(d);
    assert (s + [DigitChar(d)])[..|s|] == s;
  }

  lemma {:induction false} DecimalIsTheNumber(n: nat)
    ensures ValueOf(Decimal(n)) == n
  {
    if n < 10 {
      LastDigit("", n);
      assert "" + [DigitChar(n)] == [DigitChar(n)];
    } else {
      DecimalIsTheNumber(n / 10);
      LastDigit(Decimal(n / 10), n % 10);
    }
  }

  lemma {:induction false} ZerosAddNothing(n: nat, d: string)
    ensures ValueOf(Zeros(n) + d) == ValueOf(d)
    decreases |d|, n
  {
    if d == "" {
      assert Zeros(n) + d == Zeros(n);
      if n > 0 {
        ZerosAddNothing(n - 1, d);
        assert Zeros(n)[..n - 1] == Zeros(n - 1) == Zeros(n - 1) + d;
      }
    } else {
      ZerosAddNothing(n, d[..|d| - 1]);
      assert (Zeros(n) + d)[..n + |d| - 1] == Zeros(n) + d[..|d| - 1];
    }
  }

  /** A padded number has the width asked for at least, and is longer only when it must be. */
  lemma PaddedIsTheNumber(n: nat, width: nat)
    ensures ValueOf(Padded(n, width)) == n
    ensures |Padded(n, width)| == if |Decimal(n)| < width then width else |Decimal(n)|
  {
    DecimalIsTheNumber(n);
    if |Decimal(n)| < width {
      ZerosAddNothing(width - |Decimal(n)|, Decimal(n));
    }
  }

  /** The names, as the second replica of a source takes them one after the other. */
  lemma NamesLookLikeThis(source: string)
    ensures Attempt(Base(source, 2), 7, 0) == source + "__replica-" + "002"
    ensures Attempt(Base(source, 2), 7, 1) == source + "__replica-" + "002" + "__entry-" + "0007"
    ensures Attempt(Base(source, 2), 7, 2) == source + "__replica-" + "002" + "__entry-" + "0007" + "-" + "2"
  {
    assert Decimal(2) == "2" && Decimal(7) == "7";
    assert Zeros(2) == "00" && Zeros(3) == "000";
    assert "00" + "2" == "002" && "000" + "7" == "0007";
  }

  // --------------------------------------------------------------------- names

  function Base(source: string, occurrence: nat): string {
    source + "__replica-" + Padded(occurrence, 3)
  }

  function Entry(base: string, index: nat): string {
    base + "__entry-" + Padded(index, 4)
  }

  /** The names tried for one session, in order: the base, the entry, then numbered from 2. */
  function Attempt(base: string, index: nat, k: nat): string {
    if k == 0 then base
    else if k == 1 then Entry(base, index)
    else Entry(base, index) + "-" + Decimal(k)
  }

  lemma AttemptsDiffer(base: string, index: nat, j: nat, k: nat)
    requires Attempt(base, index, j) == Attempt(base, index, k)
    ensures j == k
  {
    var entry := Entry(base, index);
    if j >= 2 && k >= 2 {
      assert Attempt(base, index, j)[|entry| + 1..] == Decimal(j);
      assert Attempt(base, index, k)[|entry| + 1..] == Decimal(k);
      DecimalIsInjective(j, k);
    }
  }

  /** The first n attempts, as a set: n of them, since they all differ. */
  function Attempts(base: string, index: nat, n: nat): set<string> {
    if n == 0 then {} else Attempts(base, index, n - 1) + {Attempt(base, index, n - 1)}
  }

  /** The name is the first attempt that is not taken. */
  ghost predicate IsFreeName(base: string, index: nat, taken: set<string>, name: string) {
    name !in taken && exists k: nat :: Attempts(base, index, k) <= taken && name == Attempt(base, index, k)
  }

  lemma SubsetIsSmaller<T>(a: set<T>, b: set<T>)
    requires a <= b
    ensures |a| <= |b|
  {
    if a != {} {
      var x :| x in a;
      SubsetIsSmaller(a - {x}, b - {x});
    }
  }

  lemma {:induction false} AttemptsAreMany(base: string, index: nat, n: nat)
    ensures |Attempts(base, index, n)| == n
    ensures forall x :: x in Attempts(base, index, n) ==> exists j: nat :: j < n && x == Attempt(base, index, j)
  {
    if n == 0 {
    } else {
      AttemptsAreMany(base, index, n - 1);
      var x := Attempt(base, index, n - 1);
      if x in Attempts(base, index, n - 1) {
        var j: nat :| j < n - 1 && x == Attempt(base, index, j);
        AttemptsDiffer(base, index, j, n - 1);
      }
      assert n - 1 < n && x == Attempt(base, index, n - 1);
    }
  }

  lemma OnlySoManyTaken(base: string, index: nat, taken: set<string>, n: nat)
    requires Attempts(base, index, n) <= taken
    ensures n <= |taken|
  {
    AttemptsAreMany(base, index, n);
    SubsetIsSmaller(Attempts(base, index, n), taken);
  }

  /** The search for a free suffix ends: the suffixed names differ and only finitely many are taken. */
  method FreeName(base: string, index: nat, taken: set<string>) returns (name: string)
    ensures IsFreeName(base, index, taken, name)
  {
    name := base;
    if name in taken {
      name := Entry(base, index);
      var suffix := 2;
      while name in taken
        invariant suffix >= 2 && name == Attempt(base, index, suffix - 1)
        invariant Attempts(base, index, suffix - 1) <= taken
        decreases |taken| - suffix
      {
        OnlySoManyTaken(base, index, taken, suffix);
        name := Entry(base, index) + "-" + Decimal(suffix);
        suffix := suffix + 1;
      }
    } else {
      assert Attempts(base, index, 0) <= taken && name == Attempt(base, index, 0);
    }
  }

  // ---------------------------------------------------------------- assignment

  function Sources(sessions: seq<Session>): (sources: seq<string>)
    ensures |sources| == |sessions|
  {
    seq(|sessions|, i requires 0 <= i < |sessions| => sessions[i].sourceAgentId)
  }

  function Occurrences(sources: seq<string>, source: string): nat {
    multiset(sources)[source]
  }

  function ToSet<T>(xs: seq<T>): set<T> {
    set x | x in xs
  }

  /** A session alone with its source keeps the name; the others get the first free attempt. */
  ghost predicate IsAssigned(sessions: seq<Session>, ids: seq<string>, i: nat)
    requires i < |sessions| && i < |ids|
  {
    var sources := Sources(sessions);
    if Occurrences(sources, sources[i]) == 1 then ids[i] == sources[i]
    else
      var base := Base(sources[i], Occurrences(sources[..i + 1], sources[i]));
      IsFreeName(base, sessions[i].manifestIndex, ToSet(sources) + ToSet(ids[..i]), ids[i])
  }

  /** The first n sessions are named so. */
  ghost predicate Assigned(sessions: seq<Session>, ids: seq<string>, n: nat)
    requires n <= |ids| <= |sessions|
  {
    n > 0 ==> Assigned(sessions, ids, n - 1) && IsAssigned(sessions, ids, n - 1)
  }

  lemma {:induction false} AssignedAt(sessions: seq<Session>, ids: seq<string>, n: nat, i: nat)
    requires i < n <= |ids| <= |sessions| && Assigned(sessions, ids, n)
    ensures IsAssigned(sessions, ids, i)
  {
    if i == n - 1 {
    } else {
      AssignedAt(sessions, ids, n - 1, i);
    }
  }

  lemma {:induction false} StaysAssigned(sessions: seq<Session>, ids: seq<string>, id: string, n: nat)
    requires n <= |ids| < |sessions| && Assigned(sessions, ids, n)
    ensures Assigned(sessions, ids + [id], n)
  {
    if n == 0 {
    } else {
      StaysAssigned(sessions, ids, id, n - 1);
      assert (ids + [id])[..n - 1] == ids[..n - 1];
    }
  }

  lemma AssignedHere(sessions: seq<Session>, ids: seq<string>, id: string)
    requires |ids| < |sessions|
    requires
      var sources, source := Sources(sessions), sessions[|ids|].sourceAgentId;
      if Occurrences(sources, source) == 1 then id == source
      else
        IsFreeName(Base(source, Occurrences(sources[..|ids|], source) + 1), sessions[|ids|].manifestIndex,
                   ToSet(sources) + ToSet(ids), id)
    ensures IsAssigned(sessions, ids + [id], |ids|)
  {
    var sources := Sources(sessions);
    assert sources[..|ids| + 1] == sources[..|ids|] + [sources[|ids|]];
    assert (ids + [id])[..|ids|] == ids;
  }

  lemma AssignNext(sessions: seq<Session>, ids: seq<string>, id: string, occurrence: nat)
    requires |ids| < |sessions| && Assigned(sessions, ids, |ids|)
    requires
      var sources, source := Sources(sessions), sessions[|ids|].sourceAgentId;
      if Occurrences(sources, source) == 1 then id == source
      else
        && occurrence == Occurrences(sources[..|ids|], source) + 1
        && IsFreeName(Base(source, occurrence), sessions[|ids|].manifestIndex, ToSet(sources) + ToSet(ids), id)
    ensures Assigned(sessions, ids + [id], |ids| + 1)
    ensures ToSet(ids + [id]) == ToSet(ids) + {id}
  {
    AssignedHere(sessions, ids, id);
    StaysAssigned(sessions, ids, id, |ids|);
  }

  /** How many sessions of each shared source have been named among the first n. */
  ghost predicate Tracks(seen: map<string, nat>, sources: seq<string>, n: nat)
    requires n <= |sources|
  {
    forall s :: s in sources && Occurrences(sources, s) != 1 ==>
      (if s in seen then seen[s] else 0) == Occurrences(sources[..n], s)
  }

  lemma TracksNext(seen: map<string, nat>, sources: seq<string>, n: nat)
    requires n < |sources| && Tracks(seen, sources, n)
    ensures
      var s := sources[n];
      if Occurrences(sources, s) == 1 then Tracks(seen, sources, n + 1)
      else Tracks(seen[s := (if s in seen then seen[s] else 0) + 1], sources, n + 1)
    ensures Occurrences(sources, sources[n]) != 1 ==>
      (if sources[n] in seen then seen[sources[n]] else 0) == Occurrences(sources[..n], sources[n])
  {
    assert sources[..n + 1] == sources[..n] + [sources[n]];
  }

  method CountSources(sessions: seq<Session>) returns (counts: map<string, nat>)
    ensures counts.Keys == ToSet(Sources(sessions))
    ensures forall s :: s in counts ==> counts[s] == Occurrences(Sources(sessions), s)
  {
    counts := map[];
    var sources := Sources(sessions);
    for i := 0 to |sessions|
      invariant counts.Keys == ToSet(sources[..i])
      invariant forall s :: s in counts ==> counts[s] == Occurrences(sources[..i], s)
    {
      var s := sessions[i].sourceAgentId;
      assert sources[..i + 1] == sources[..i] + [s];
      assert s !in counts ==> Occurrences(sources[..i], s) == 0;
      counts := counts[s := (if s in counts then counts[s] else 0) + 1];
    }
    assert sources[..|sessions|] == sources;
  }

  method AssignReplayInstanceIds(sessions: seq<Session>) returns (ids: seq<string>)
    ensures |ids| == |sessions| && Assigned(sessions, ids, |ids|)
  {
    ghost var sources := Sources(sessions);
    var counts := CountSources(sessions);
    var reserved, used: set<string> := counts.Keys, {};
    var seen: map<string, nat> := map[];
    ids := [];
    for i := 0 to |sessions|
      invariant |ids| == i && used == ToSet(ids)
      invariant Tracks(seen, sources, i) && Assigned(sessions, ids, i)
    {
      var source, candidate, occurrence := sessions[i].sourceAgentId, sessions[i].sourceAgentId, 0;
      assert sources[i] == source && source in sources;
      TracksNext(seen, sources, i);
      if counts[source] != 1 {
        occurrence := (if source in seen then seen[source] else 0) + 1;
        seen := seen[source := occurrence];
        candidate := FreeName(Base(source, occurrence), sessions[i].manifestIndex, reserved + used);
      }
      AssignNext(sessions, ids, candidate, occurrence);
      ids := ids + [candidate];
      used := used + {candidate};
    }
  }

  /** A replica's id is no source's name and no earlier id; anything else keeps its source's name. */
  lemma NameOf(sessions: seq<Session>, ids: seq<string>, i: nat)
    requires i < |ids| == |sessions| && Assigned(sessions, ids, |ids|)
    ensures
      if Occurrences(Sources(sessions), sessions[i].sourceAgentId) == 1 then ids[i] == sessions[i].sourceAgentId
      else ids[i] !in Sources(sessions) && ids[i] !in ids[..i]
  {
    AssignedAt(sessions, ids, |ids|, i);
  }

  lemma TwoOccurrences(sources: seq<string>, i: nat, j: nat)
    requires i < j < |sources| && sources[i] == sources[j]
    ensures Occurrences(sources, sources[i]) >= 2
  {
    assert sources == sources[..i] + [sources[i]] + sources[i + 1..j] + [sources[j]] + sources[j + 1..];
  }

  /** The ids are pairwise distinct, though the name of a lone source is never checked against them. */
  lemma IdsAreDistinct(sessions: seq<Session>, ids: seq<string>, i: nat, j: nat)
    requires i < j < |ids| == |sessions| && Assigned(sessions, ids, |ids|)
    ensures ids[i] != ids[j]
  {
    var sources := Sources(sessions);
    assert sources[i] in sources && sources[j] in sources;
    NameOf(sessions, ids, i);
    NameOf(sessions, ids, j);
    assert ids[..j][i] in ids[..j];
    if sources[i] == sources[j] {
      TwoOccurrences(sources, i, j);
    }
  }

  /** An id is some source's name exactly when its session has that source to itself. */
  lemma ReplicasAvoidSources(sessions: seq<Session>, ids: seq<string>, i: nat)
    requires i < |ids| == |sessions| && Assigned(sessions, ids, |ids|)
    ensures ids[i] in Sources(sessions) <==> Occurrences(Sources(sessions), sessions[i].sourceAgentId) == 1
  {
    NameOf(sessions, ids, i);
    assert Sources(sessions)[i] in Sources(sessions);
  }
}
