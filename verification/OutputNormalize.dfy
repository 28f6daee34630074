/** The six substitution passes that remove volatile fragments from tool output. */
module OutputNormalize {
  import opened Prelude
  import opened Regex

  datatype Pattern = IsoTimestamp | EpochTimestamp | ProcPath | TmpPath | HexAddress | DigitRun

  function Times(k: Class, n: nat): Regex {
    Repeat(k, n, Some(n))
  }

  function OneOrMore(k: Class): Regex {
    Repeat(k, 1, None)
  }

  function Fraction(): Regex {
    Optional(Then(Word("."), OneOrMore(Digit)))
  }

  function Zone(): Regex {
    Optional(Either(
      Word("Z"),
      Then(Times(OneOf("+-"), 1), Then(Times(Digit, 2), Then(Optional(Word(":")), Times(Digit, 2))))))
  }

  function Date(rest: Regex): Regex {
    Then(Times(Digit, 4), Then(Word("-"), Then(Times(Digit, 2), Then(Word("-"), Then(Times(Digit, 2), rest)))))
  }

  function Clock(rest: Regex): Regex {
    Then(Times(Range('0', '2'), 1), Then(Times(Digit, 1), Then(Word(":"),
    Then(Times(Range('0', '5'), 1), Then(Times(Digit, 1), Then(Word(":"),
    Then(Times(Range('0', '5'), 1), Then(Times(Digit, 1), rest))))))))
  }

  function IsoRest(): Regex {
    Then(Times(OneOf("T "), 1), Clock(Then(Fraction(), Then(Zone(), WordBoundary))))
  }

  function RegexOf(p: Pattern): Regex {
    match p
    case IsoTimestamp => Then(WordBoundary, Date(IsoRest()))
    case EpochTimestamp =>
      Either(
        Then(WordBoundary, Then(Times(Range('1', '2'), 1), Then(Times(Digit, 9), Then(Fraction(), WordBoundary)))),
        Then(WordBoundary, Then(Times(Range('1', '2'), 1), Then(Repeat(Digit, 12, Some(15)), WordBoundary))))
    case ProcPath =>
      Then(Word("/proc/"), Then(OneOrMore(Digit), Optional(Then(Word("/"), OneOrMore(NoSpaceOrQuote)))))
    case TmpPath => Then(Word("/tmp/"), OneOrMore(NoSpaceOrQuote))
    case HexAddress => Then(WordBoundary, Then(Word("0x"), Then(OneOrMore(Hex), WordBoundary)))
    case DigitRun => OneOrMore(Digit)
  }

  function Replacement(p: Pattern): string {
    match p
    case IsoTimestamp => "<TS>"
    case EpochTimestamp => "<TS>"
    case ProcPath => "<PROC>"
    case TmpPath => "<TMP>"
    case HexAddress => "<HEX>"
    case DigitRun => "<N>"
  }

  /** A temporary path begins at i. */
  predicate TmpAt(u: Alphabet, s: string, i: nat) {
    StartsWith(s, i, "/tmp/") && i + 5 < |s| && In(u, NoSpaceOrQuote, s[i + 5])
  }

  lemma RegexShapes(p: Pattern)
    ensures BeginsInPath(RegexOf(p))
    ensures !p.TmpPath? ==> NeedsDigit(RegexOf(p))
  {
    match p
    case IsoTimestamp =>
      assert BeginsInPath(Date(IsoRest())) && NeedsDigit(Date(IsoRest()));
    case EpochTimestamp =>
    case ProcPath =>
      assert NeedsDigit(Then(OneOrMore(Digit), Optional(Then(Word("/"), OneOrMore(NoSpaceOrQuote)))));
    case TmpPath =>
    case HexAddress =>
      assert AsciiDigit("0x"[0]);
      assert NeedsDigit(Word("0x"));
      assert NeedsDigit(Then(Word("0x"), Then(OneOrMore(Hex), WordBoundary)));
    case DigitRun =>
  }

  /** A match is never empty, and but for temporary paths it holds a digit. */
  lemma MatchNeeds(p: Pattern, u: Alphabet, s: string, i: nat)
    requires Sensible(u) && i <= |s| && Match(RegexOf(p), u, s, i).Some?
    ensures i < |s| && In(u, NoSpaceOrQuote, s[i]) && i < Match(RegexOf(p), u, s, i).value
    ensures !p.TmpPath? ==> HasDigit(u, s, i, |s|)
  {
    var end := Match(RegexOf(p), u, s, i).value;
    RegexShapes(p);
    MatchIsAMatch(RegexOf(p), u, s, i);
    MatchBeginsInPath(RegexOf(p), u, s, i, end);
    if !p.TmpPath? {
      MatchHoldsDigit(RegexOf(p), u, s, i, end);
    }
  }

  lemma TmpMatches(u: Alphabet, s: string, i: nat)
    requires i <= |s|
    ensures Match(RegexOf(TmpPath), u, s, i).Some? <==> TmpAt(u, s, i)
  {
    var r, path := Word("/tmp/"), OneOrMore(NoSpaceOrQuote);
    MatchIsAMatch(RegexOf(TmpPath), u, s, i);
    if TmpAt(u, s, i) {
      assert Accepts(r, u, s, i, i + 5) && Accepts(path, u, s, i + 5, i + 6);
      assert Accepts(Then(r, path), u, s, i, i + 6);
    }
    if j: nat :| Accepts(RegexOf(TmpPath), u, s, i, j) {
      assert Accepts(Then(r, path), u, s, i, j);
      var m: nat :| Accepts(r, u, s, i, m) && Accepts(path, u, s, m, j);
      assert In(u, NoSpaceOrQuote, s[m]);
    }
  }

  // -------------------------------------------------------------- substitution

  /** For each position of a text, where a match that starts there ends. */
  predicate Table(s: string, ends: seq<Option<nat>>) {
    |ends| == |s| && forall i :: 0 <= i < |s| && ends[i].Some? ==> i < ends[i].value <= |s|
  }

  /** An empty match would not be replaced here; none of the patterns has one. */
  function Matches(p: Pattern, u: Alphabet, s: string): (ends: seq<Option<nat>>)
    ensures Table(s, ends)
  {
    seq(|s|, i requires 0 <= i < |s| =>
      var end := Match(RegexOf(p), u, s, i);
      if end.Some? && end.value > i then end else None)
  }

  /** Leftmost matches that do not overlap, each replaced by w; i is where scanning has got to. */
  function Replace(s: string, ends: seq<Option<nat>>, w: string, i: nat): string
    requires Table(s, ends) && i <= |s|
    decreases |s| - i
  {
    if i == |s| then ""
    else if ends[i].Some? then w + Replace(s, ends, w, ends[i].value)
    else [s[i]] + Replace(s, ends, w, i + 1)
  }

  function Sub(p: Pattern, u: Alphabet, s: string): string {
    Replace(s, Matches(p, u, s), Replacement(p), 0)
  }

  function Normalize(u: Alphabet, s: string): string {
    Sub(DigitRun, u, Sub(HexAddress, u, Sub(TmpPath, u, Sub(ProcPath, u, Sub(EpochTimestamp, u, Sub(IsoTimestamp, u, s))))))
  }

  // --------------------------------------------------------------- idempotence

  predicate NoDigit(u: Alphabet, s: string) {
    forall i :: 0 <= i < |s| ==> s[i] !in u.digits
  }

  predicate NoTmp(u: Alphabet, s: string) {
    forall i: nat :: i < |s| ==> !TmpAt(u, s, i)
  }

  /** Nothing volatile is left. */
  predicate Stable(u: Alphabet, s: string) {
    NoDigit(u, s) && NoTmp(u, s)
  }

  lemma {:induction false} NoMatchNoChange(s: string, ends: seq<Option<nat>>, w: string, i: nat)
    requires Table(s, ends) && i <= |s| && forall k :: i <= k < |s| ==> ends[k].None?
    ensures Replace(s, ends, w, i) == s[i..]
    decreases |s| - i
  {
    if i == |s| {
    } else {
      NoMatchNoChange(s, ends, w, i + 1);
    }
  }

  lemma StableIsFixed(p: Pattern, u: Alphabet, s: string)
    requires Sensible(u) && Stable(u, s)
    ensures Sub(p, u, s) == s
  {
    forall k | 0 <= k < |s|
      ensures Match(RegexOf(p), u, s, k).None?
    {
      if Match(RegexOf(p), u, s, k).Some? {
        MatchNeeds(p, u, s, k);
        TmpMatches(u, s, k);
      }
    }
    NoMatchNoChange(s, Matches(p, u, s), Replacement(p), 0);
  }

  lemma {:induction false} DigitsAreGone(u: Alphabet, s: string, ends: seq<Option<nat>>, w: string, i: nat)
    requires Table(s, ends) && i <= |s| && NoDigit(u, w)
    requires forall k :: 0 <= k < |s| && ends[k].None? ==> s[k] !in u.digits
    ensures NoDigit(u, Replace(s, ends, w, i))
    decreases |s| - i
  {
    if i == |s| {
    } else {
      DigitsAreGone(u, s, ends, w, if ends[i].Some? then ends[i].value else i + 1);
    }
  }

  predicate InTmp(c: char) {
    c == '/' || c == 't' || c == 'm' || c == 'p'
  }

  predicate Foreign(w: string) {
    w != [] && forall i :: 0 <= i < |w| ==> !InTmp(w[i])
  }

  /** Characters of the output that no replacement holds were kept, one after the other. */
  lemma {:induction false} KeptPrefix(s: string, ends: seq<Option<nat>>, w: string, i: nat, k: nat)
    requires Table(s, ends) && Foreign(w) && i <= |s| && k <= |Replace(s, ends, w, i)|
    requires forall j :: 0 <= j < k ==> InTmp(Replace(s, ends, w, i)[j])
    ensures i + k <= |s| && s[i..i + k] == Replace(s, ends, w, i)[..k]
    ensures Replace(s, ends, w, i)[k..] == Replace(s, ends, w, i + k)
    decreases k
  {
    if k == 0 {
    } else {
      var out := Replace(s, ends, w, i);
      var rest := Replace(s, ends, w, i + 1);
      assert InTmp(out[0]);
      assert out == [s[i]] + rest;
      forall j | 0 <= j < k - 1
        ensures InTmp(rest[j])
      {
        assert rest[j] == out[j + 1];
      }
      KeptPrefix(s, ends, w, i + 1, k - 1);
      assert s[i..i + k] == [s[i]] + s[i + 1..i + k];
      assert out[..k] == [s[i]] + rest[..k - 1] && out[k..] == rest[k - 1..];
    }
  }

  /** A temporary path that begins with a kept character was there before the pass. */
  lemma TmpWasThere(u: Alphabet, s: string, ends: seq<Option<nat>>, w: string, i: nat)
    requires Table(s, ends) && Foreign(w) && i <= |s| && TmpAt(u, Replace(s, ends, w, i), 0)
    requires forall k :: 0 <= k < |s| && ends[k].Some? ==> In(u, NoSpaceOrQuote, s[k])
    ensures i < |s| && TmpAt(u, s, i)
  {
    var out := Replace(s, ends, w, i);
    assert out[..5] == out[0..5] == "/tmp/";
    assert forall j :: 0 <= j < 5 ==> out[j] == out[..5][j];
    KeptPrefix(s, ends, w, i, 5);
    assert out[5..][0] == out[5];
  }

  lemma NoTmpAfterStep(u: Alphabet, head: string, rest: string)
    requires head != [] && NoTmp(u, rest) && (|head| == 1 || Foreign(head))
    requires !TmpAt(u, head + rest, 0)
    ensures NoTmp(u, head + rest)
  {
    var out := head + rest;
    forall j: nat | j < |out|
      ensures !TmpAt(u, out, j)
    {
      if TmpAt(u, out, j) {
        assert out[j..j + 5][0] == '/';
        if j >= |head| {
          assert out[j..j + 5] == rest[j - |head|..j - |head| + 5];
          assert TmpAt(u, rest, j - |head|);
        }
      }
    }
  }

  lemma NoTmpAtFront(u: Alphabet, s: string, ends: seq<Option<nat>>, w: string, i: nat)
    requires Table(s, ends) && Foreign(w) && i < |s|
    requires forall k :: 0 <= k < |s| && ends[k].Some? ==> In(u, NoSpaceOrQuote, s[k])
    requires ends[i].None? ==> !TmpAt(u, s, i)
    ensures !TmpAt(u, Replace(s, ends, w, i), 0)
  {
    var out := Replace(s, ends, w, i);
    StartsWithSlash(u, out);
    if ends[i].Some? {
      assert out[0] == w[0];
    } else if TmpAt(u, out, 0) {
      TmpWasThere(u, s, ends, w, i);
    }
  }

  lemma StartsWithSlash(u: Alphabet, s: string)
    ensures TmpAt(u, s, 0) ==> InTmp(s[0])
  {
    if TmpAt(u, s, 0) {
      assert s[0..5][0] == '/';
    }
  }

  /** A pass leaves no temporary path if it keeps no character at which one begins. */
  lemma {:induction false} NoTmpAfter(u: Alphabet, s: string, ends: seq<Option<nat>>, w: string, i: nat)
    requires Table(s, ends) && Foreign(w) && i <= |s|
    requires forall k :: 0 <= k < |s| && ends[k].Some? ==> In(u, NoSpaceOrQuote, s[k])
    requires forall k: nat :: k < |s| && ends[k].None? ==> !TmpAt(u, s, k)
    ensures NoTmp(u, Replace(s, ends, w, i))
    decreases |s| - i
  {
    if i == |s| {
    } else {
      var next := if ends[i].Some? then ends[i].value else i + 1;
      NoTmpAfter(u, s, ends, w, next);
      NoTmpAtFront(u, s, ends, w, i);
      NoTmpAfterStep(u, if ends[i].Some? then w else [s[i]], Replace(s, ends, w, next));
    }
  }

  lemma PassLeavesNoTmp(p: Pattern, u: Alphabet, s: string)
    requires Sensible(u) && (p.TmpPath? || NoTmp(u, s))
    ensures NoTmp(u, Sub(p, u, s))
  {
    var ends := Matches(p, u, s);
    forall k: nat | k < |s|
      ensures if ends[k].Some? then In(u, NoSpaceOrQuote, s[k]) else !TmpAt(u, s, k)
    {
      if Match(RegexOf(p), u, s, k).Some? {
        MatchNeeds(p, u, s, k);
      }
      TmpMatches(u, s, k);
    }
    NoTmpAfter(u, s, ends, Replacement(p), 0);
  }

  lemma LastPassLeavesNoDigit(u: Alphabet, s: string)
    requires Sensible(u)
    ensures NoDigit(u, Sub(DigitRun, u, s))
  {
    var ends := Matches(DigitRun, u, s);
    forall k | 0 <= k < |s| && ends[k].None?
      ensures s[k] !in u.digits
    {
      if Match(RegexOf(DigitRun), u, s, k).Some? {
        MatchNeeds(DigitRun, u, s, k);
      }
    }
    DigitsAreGone(u, s, ends, "<N>", 0);
  }

  /** Whatever the text, the result holds no digit and no temporary path. */
  lemma NormalizedIsStable(u: Alphabet, s: string)
    requires Sensible(u)
    ensures Stable(u, Normalize(u, s))
  {
    var s3 := Sub(ProcPath, u, Sub(EpochTimestamp, u, Sub(IsoTimestamp, u, s)));
    PassLeavesNoTmp(TmpPath, u, s3);
    PassLeavesNoTmp(HexAddress, u, Sub(TmpPath, u, s3));
    var s5 := Sub(HexAddress, u, Sub(TmpPath, u, s3));
    PassLeavesNoTmp(DigitRun, u, s5);
    LastPassLeavesNoDigit(u, s5);
  }

  /** Normalising changes exactly the texts with something volatile in them. */
  lemma FixedIffStable(u: Alphabet, s: string)
    requires Sensible(u)
    ensures Normalize(u, s) == s <==> Stable(u, s)
  {
    NormalizedIsStable(u, s);
    if Stable(u, s) {
      StableIsFixed(IsoTimestamp, u, s);
      StableIsFixed(EpochTimestamp, u, s);
      StableIsFixed(ProcPath, u, s);
      StableIsFixed(TmpPath, u, s);
      StableIsFixed(HexAddress, u, s);
      StableIsFixed(DigitRun, u, s);
    }
  }

  lemma NormalizeIsIdempotent(u: Alphabet, s: string)
    requires Sensible(u)
    ensures Normalize(u, Normalize(u, s)) == Normalize(u, s)
  {
    NormalizedIsStable(u, s);
    FixedIffStable(u, Normalize(u, s));
  }
}
