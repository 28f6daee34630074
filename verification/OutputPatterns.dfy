/** What the six expressions of the output normaliser match, spelt out character by character. */
module OutputPatterns {
  import opened Prelude
  import opened Regex
  import opened OutputNormalize

  // ------------------------------------------------------------------ the languages

  /** The stretch from i to j lies in the text and holds digits only. */
  predicate Digits(u: Alphabet, s: string, i: nat, j: nat) {
    i <= j <= |s| && forall k :: i <= k < j ==> s[k] in u.digits
  }

  /** Just one side of position i is a word character. */
  predicate AtWordEdge(u: Alphabet, s: string, i: nat) {
    i <= |s| && (i > 0 && s[i - 1] in u.word) != (i < |s| && s[i] in u.word)
  }

  predicate HexDigit(c: char) {
    '0' <= c <= '9' || 'a' <= c <= 'f' || 'A' <= c <= 'F'
  }

  /** The stretch from i to j holds neither white space nor quotes. */
  predicate Plain(u: Alphabet, s: string, i: nat, j: nat) {
    i <= j <= |s| && forall k :: i <= k < j ==> s[k] !in u.space && s[k] != '"' && s[k] != '\'' && s[k] != '`'
  }

  predicate IsFraction(u: Alphabet, s: string, i: nat, j: nat) {
    j == i || (i + 1 < j && i < |s| && s[i] == '.' && Digits(u, s, i + 1, j))
  }

  predicate IsZone(u: Alphabet, s: string, i: nat, j: nat) {
    || j == i
    || (j == i + 1 && i < |s| && s[i] == 'Z')
    || (i < |s| && (s[i] == '+' || s[i] == '-') && Digits(u, s, i + 1, i + 3)
        && ((j == i + 5 && Digits(u, s, i + 3, j)) || (j == i + 6 && i + 3 < |s| && s[i + 3] == ':' && Digits(u, s, i + 4, j))))
  }

  /** Four, two and two digits, a T or a blank, and a clock of two digits each below 30, 60 and 60. */
  predicate IsDateAndClock(u: Alphabet, s: string, i: nat) {
    && i + 19 <= |s|
    && Digits(u, s, i, i + 4) && s[i + 4] == '-' && Digits(u, s, i + 5, i + 7) && s[i + 7] == '-' && Digits(u, s, i + 8, i + 10)
    && (s[i + 10] == 'T' || s[i + 10] == ' ')
    && '0' <= s[i + 11] <= '2' && s[i + 12] in u.digits && s[i + 13] == ':'
    && '0' <= s[i + 14] <= '5' && s[i + 15] in u.digits && s[i + 16] == ':'
    && '0' <= s[i + 17] <= '5' && s[i + 18] in u.digits
  }

  /** A number, and perhaps a slash and the name of a file after it. */
  ghost predicate IsProcess(u: Alphabet, s: string, i: nat, j: nat) {
    exists m: nat :: i < m <= j && Digits(u, s, i, m) && (j == m || (m + 1 < j <= |s| && s[m] == '/' && Plain(u, s, m + 1, j)))
  }

  /** What each pattern stands for. */
  ghost predicate Reads(p: Pattern, u: Alphabet, s: string, i: nat, j: nat) {
    i < |s| && j <= |s| &&
    match p
    case IsoTimestamp =>
      && AtWordEdge(u, s, i) && AtWordEdge(u, s, j) && IsDateAndClock(u, s, i)
      && exists m: nat :: IsFraction(u, s, i + 19, m) && IsZone(u, s, m, j)
    case EpochTimestamp =>
      && AtWordEdge(u, s, i) && AtWordEdge(u, s, j) && '1' <= s[i] <= '2'
      && ((Digits(u, s, i + 1, i + 10) && IsFraction(u, s, i + 10, j)) || (i + 13 <= j <= i + 16 && Digits(u, s, i + 1, j)))
    case ProcPath =>
      StartsWith(s, i, "/proc/") && IsProcess(u, s, i + 6, j)
    case TmpPath => StartsWith(s, i, "/tmp/") && i + 5 < j && Plain(u, s, i + 5, j)
    case HexAddress =>
      && AtWordEdge(u, s, i) && AtWordEdge(u, s, j) && StartsWith(s, i, "0x")
      && i + 2 < j && forall k :: i + 2 <= k < j ==> HexDigit(s[k])
    case DigitRun => i < j && Digits(u, s, i, j)
  }

  // ------------------------------------------------------------- expressions in sequence

  lemma ThenSplits(r: Regex, u: Alphabet, s: string, i: nat, j: nat) returns (m: nat)
    requires r.Then? && Accepts(r, u, s, i, j)
    ensures Accepts(r.first, u, s, i, m) && Accepts(r.second, u, s, m, j)
  {
    match r
    case Then(a, b) => m :| Accepts(a, u, s, i, m) && Accepts(b, u, s, m, j);
  }

  lemma WordThen(w: string, r: Regex, u: Alphabet, s: string, i: nat, j: nat)
    ensures Accepts(Then(Word(w), r), u, s, i, j) <==> StartsWith(s, i, w) && Accepts(r, u, s, i + |w|, j)
  {
    if StartsWith(s, i, w) {
      assert Accepts(Word(w), u, s, i, i + |w|);
    }
  }

  lemma BoundaryThen(r: Regex, u: Alphabet, s: string, i: nat, j: nat)
    ensures Accepts(Then(WordBoundary, r), u, s, i, j) <==> i <= |s| && Boundary(u, s, i) && Accepts(r, u, s, i, j)
  {
    if i <= |s| && Boundary(u, s, i) {
      assert Accepts(WordBoundary, u, s, i, i);
    }
  }

  lemma TimesThen(k: Class, n: nat, r: Regex, u: Alphabet, s: string, i: nat, j: nat)
    ensures Accepts(Then(Times(k, n), r), u, s, i, j) <==>
      i + n <= |s| && (forall x :: i <= x < i + n ==> In(u, k, s[x])) && Accepts(r, u, s, i + n, j)
  {
    if i + n <= |s| && forall x :: i <= x < i + n ==> In(u, k, s[x]) {
      assert Accepts(Times(k, n), u, s, i, i + n);
    }
  }

  lemma OneThen(k: Class, r: Regex, u: Alphabet, s: string, i: nat, j: nat)
    ensures Accepts(Then(Times(k, 1), r), u, s, i, j) <==> i < |s| && In(u, k, s[i]) && Accepts(r, u, s, i + 1, j)
  {
    TimesThen(k, 1, r, u, s, i, j);
  }

  lemma CharThen(c: char, r: Regex, u: Alphabet, s: string, i: nat, j: nat)
    ensures Accepts(Then(Word([c]), r), u, s, i, j) <==> i < |s| && s[i] == c && Accepts(r, u, s, i + 1, j)
  {
    WordThen([c], r, u, s, i, j);
    if i < |s| {
      assert s[i..i + 1] == [s[i]];
    }
  }

  // ----------------------------------------------------------------- timestamps

  lemma FractionMeans(u: Alphabet, s: string, i: nat, j: nat)
    requires i <= |s| && j <= |s|
    ensures Accepts(Fraction(), u, s, i, j) <==> IsFraction(u, s, i, j)
  {
    CharThen('.', OneOrMore(Digit), u, s, i, j);
  }

  lemma DigitsThen(n: nat, r: Regex, u: Alphabet, s: string, i: nat, j: nat)
    ensures Accepts(Then(Times(Digit, n), r), u, s, i, j) <==> Digits(u, s, i, i + n) && Accepts(r, u, s, i + n, j)
  {
    TimesThen(Digit, n, r, u, s, i, j);
  }

  lemma ZoneMeans(u: Alphabet, s: string, i: nat, j: nat)
    requires i <= |s| && j <= |s|
    ensures Accepts(Zone(), u, s, i, j) <==> IsZone(u, s, i, j)
  {
    var colon := Then(Optional(Word(":")), Times(Digit, 2));
    var hours := Then(Times(Digit, 2), colon);
    OneThen(OneOf("+-"), hours, u, s, i, j);
    DigitsThen(2, colon, u, s, i + 1, j);
    ColonMeans(u, s, i + 3, j);
    assert Accepts(Word("Z"), u, s, i, j) <==> j == i + 1 && i < |s| && s[i] == 'Z' by {
      if i < |s| { assert s[i..i + 1] == [s[i]]; }
    }
  }

  lemma ColonMeans(u: Alphabet, s: string, i: nat, j: nat)
    ensures Accepts(Then(Optional(Word(":")), Times(Digit, 2)), u, s, i, j) <==>
      (j == i + 2 && Digits(u, s, i, j)) || (j == i + 3 && i < |s| && s[i] == ':' && Digits(u, s, i + 1, j))
  {
    var two := Times(Digit, 2);
    if i < |s| {
      assert s[i..i + 1] == [s[i]];
    }
    if Accepts(Then(Optional(Word(":")), two), u, s, i, j) {
      var m := ThenSplits(Then(Optional(Word(":")), two), u, s, i, j);
    }
    if Accepts(two, u, s, i, j) {
      assert Accepts(Optional(Word(":")), u, s, i, i);
    }
    if i < |s| && s[i] == ':' && Accepts(two, u, s, i + 1, j) {
      assert Accepts(Word(":"), u, s, i, i + 1);
      assert Accepts(Optional(Word(":")), u, s, i, i + 1);
    }
  }

  lemma EndMeans(u: Alphabet, s: string, i: nat, j: nat)
    requires i <= |s|
    ensures Accepts(Then(Fraction(), Then(Zone(), WordBoundary)), u, s, i, j) <==>
      j <= |s| && Boundary(u, s, j) && exists m: nat :: IsFraction(u, s, i, m) && IsZone(u, s, m, j)
  {
    var zone := Then(Zone(), WordBoundary);
    if Accepts(Then(Fraction(), zone), u, s, i, j) {
      var m := ThenSplits(Then(Fraction(), zone), u, s, i, j);
      var n := ThenSplits(zone, u, s, m, j);
      AcceptedInBounds(Fraction(), u, s, i, m);
      FractionMeans(u, s, i, m);
      ZoneMeans(u, s, m, j);
    }
    if j <= |s| && Boundary(u, s, j) {
      if m: nat :| IsFraction(u, s, i, m) && IsZone(u, s, m, j) {
        FractionMeans(u, s, i, m);
        ZoneMeans(u, s, m, j);
        assert Accepts(WordBoundary, u, s, j, j);
        assert Accepts(zone, u, s, m, j);
      }
    }
  }

  lemma ClockMeans(u: Alphabet, s: string, i: nat, j: nat, rest: Regex)
    ensures Accepts(Clock(rest), u, s, i, j) <==>
      && i + 8 <= |s|
      && '0' <= s[i] <= '2' && s[i + 1] in u.digits && s[i + 2] == ':'
      && '0' <= s[i + 3] <= '5' && s[i + 4] in u.digits && s[i + 5] == ':'
      && '0' <= s[i + 6] <= '5' && s[i + 7] in u.digits
      && Accepts(rest, u, s, i + 8, j)
  {
    var seven := Then(Times(Digit, 1), rest);
    var six := Then(Times(Range('0', '5'), 1), seven);
    var five := Then(Word(":"), six);
    var four := Then(Times(Digit, 1), five);
    var three := Then(Times(Range('0', '5'), 1), four);
    var two := Then(Word(":"), three);
    var one := Then(Times(Digit, 1), two);
    OneThen(Range('0', '2'), one, u, s, i, j);
    OneThen(Digit, two, u, s, i + 1, j);
    CharThen(':', three, u, s, i + 2, j);
    OneThen(Range('0', '5'), four, u, s, i + 3, j);
    OneThen(Digit, five, u, s, i + 4, j);
    CharThen(':', six, u, s, i + 5, j);
    OneThen(Range('0', '5'), seven, u, s, i + 6, j);
    OneThen(Digit, rest, u, s, i + 7, j);
  }

  lemma DateMeans(u: Alphabet, s: string, i: nat, j: nat, rest: Regex)
    ensures Accepts(Date(rest), u, s, i, j) <==>
      && i + 10 <= |s|
      && Digits(u, s, i, i + 4) && s[i + 4] == '-' && Digits(u, s, i + 5, i + 7) && s[i + 7] == '-' && Digits(u, s, i + 8, i + 10)
      && Accepts(rest, u, s, i + 10, j)
  {
    var four := Then(Times(Digit, 2), rest);
    var three := Then(Word("-"), four);
    var two := Then(Times(Digit, 2), three);
    var one := Then(Word("-"), two);
    DigitsThen(4, one, u, s, i, j);
    CharThen('-', two, u, s, i + 4, j);
    DigitsThen(2, three, u, s, i + 5, j);
    CharThen('-', four, u, s, i + 7, j);
    DigitsThen(2, rest, u, s, i + 8, j);
  }

  lemma IsoMeans(u: Alphabet, s: string, i: nat, j: nat)
    requires i < |s| && j <= |s|
    ensures Accepts(RegexOf(IsoTimestamp), u, s, i, j) <==> Reads(IsoTimestamp, u, s, i, j)
  {
    var end := Then(Fraction(), Then(Zone(), WordBoundary));
    BoundaryThen(Date(IsoRest()), u, s, i, j);
    DateMeans(u, s, i, j, IsoRest());
    OneThen(OneOf("T "), Clock(end), u, s, i + 10, j);
    ClockMeans(u, s, i + 11, j, end);
    if i + 19 <= |s| {
      EndMeans(u, s, i + 19, j);
    }
  }

  lemma EpochMeans(u: Alphabet, s: string, i: nat, j: nat)
    requires i < |s| && j <= |s|
    ensures Accepts(RegexOf(EpochTimestamp), u, s, i, j) <==> Reads(EpochTimestamp, u, s, i, j)
  {
    var seconds, fraction := Then(Times(Digit, 9), Then(Fraction(), WordBoundary)), Then(Fraction(), WordBoundary);
    var others := Then(Repeat(Digit, 12, Some(15)), WordBoundary);
    BoundaryThen(Then(Times(Range('1', '2'), 1), seconds), u, s, i, j);
    OneThen(Range('1', '2'), seconds, u, s, i, j);
    DigitsThen(9, fraction, u, s, i + 1, j);
    if i + 10 <= |s| {
      FractionThenBoundary(u, s, i + 10, j);
    }
    BoundaryThen(Then(Times(Range('1', '2'), 1), others), u, s, i, j);
    OneThen(Range('1', '2'), others, u, s, i, j);
    ThenBoundary(Repeat(Digit, 12, Some(15)), u, s, i + 1, j);
  }

  lemma ThenBoundary(r: Regex, u: Alphabet, s: string, i: nat, j: nat)
    requires j <= |s|
    ensures Accepts(Then(r, WordBoundary), u, s, i, j) <==> Accepts(r, u, s, i, j) && Boundary(u, s, j)
  {
    if Accepts(Then(r, WordBoundary), u, s, i, j) {
      var m := ThenSplits(Then(r, WordBoundary), u, s, i, j);
    }
    if Accepts(r, u, s, i, j) && Boundary(u, s, j) {
      assert Accepts(WordBoundary, u, s, j, j);
    }
  }

  lemma FractionThenBoundary(u: Alphabet, s: string, i: nat, j: nat)
    requires i <= |s| && j <= |s|
    ensures Accepts(Then(Fraction(), WordBoundary), u, s, i, j) <==> IsFraction(u, s, i, j) && Boundary(u, s, j)
  {
    ThenBoundary(Fraction(), u, s, i, j);
    FractionMeans(u, s, i, j);
  }

  lemma ProcMeans(u: Alphabet, s: string, i: nat, j: nat)
    requires i < |s| && j <= |s|
    ensures Accepts(RegexOf(ProcPath), u, s, i, j) <==> Reads(ProcPath, u, s, i, j)
  {
    WordThen("/proc/", Then(OneOrMore(Digit), Optional(Then(Word("/"), OneOrMore(NoSpaceOrQuote)))), u, s, i, j);
    if StartsWith(s, i, "/proc/") {
      PidMeans(u, s, i + 6, j);
    }
  }

  lemma PidMeans(u: Alphabet, s: string, i: nat, j: nat)
    requires i <= |s| && j <= |s|
    ensures Accepts(Then(OneOrMore(Digit), Optional(Then(Word("/"), OneOrMore(NoSpaceOrQuote)))), u, s, i, j) <==>
      IsProcess(u, s, i, j)
  {
    var file := Then(Word("/"), OneOrMore(NoSpaceOrQuote));
    var r := Then(OneOrMore(Digit), Optional(file));
    if Accepts(r, u, s, i, j) {
      var m := ThenSplits(r, u, s, i, j);
      AcceptedInBounds(Optional(file), u, s, m, j);
      FileMeans(u, s, m, j);
      assert i < m && Digits(u, s, i, m);
    }
    if IsProcess(u, s, i, j) {
      var m: nat :| i < m <= j && Digits(u, s, i, m) && (j == m || (m + 1 < j <= |s| && s[m] == '/' && Plain(u, s, m + 1, j)));
      FileMeans(u, s, m, j);
      assert Accepts(OneOrMore(Digit), u, s, i, m) && Accepts(Optional(file), u, s, m, j);
    }
  }

  lemma FileMeans(u: Alphabet, s: string, i: nat, j: nat)
    requires i <= |s| && j <= |s|
    ensures Accepts(Optional(Then(Word("/"), OneOrMore(NoSpaceOrQuote))), u, s, i, j) <==>
      j == i || (i + 1 < j && s[i] == '/' && Plain(u, s, i + 1, j))
  {
    CharThen('/', OneOrMore(NoSpaceOrQuote), u, s, i, j);
  }

  lemma HexMeans(u: Alphabet, s: string, i: nat, j: nat)
    requires i < |s| && j <= |s|
    ensures Accepts(RegexOf(HexAddress), u, s, i, j) <==> Reads(HexAddress, u, s, i, j)
  {
    var digits := Then(OneOrMore(Hex), WordBoundary);
    BoundaryThen(Then(Word("0x"), digits), u, s, i, j);
    WordThen("0x", digits, u, s, i, j);
    ThenBoundary(OneOrMore(Hex), u, s, i + 2, j);
  }

  /** The six expressions match just what they stand for, wherever a match can begin. */
  lemma PatternsMean(p: Pattern, u: Alphabet, s: string, i: nat, j: nat)
    requires i < |s| && j <= |s|
    ensures Accepts(RegexOf(p), u, s, i, j) <==> Reads(p, u, s, i, j)
  {
    match p
    case IsoTimestamp => IsoMeans(u, s, i, j);
    case EpochTimestamp => EpochMeans(u, s, i, j);
    case ProcPath => ProcMeans(u, s, i, j);
    case TmpPath => WordThen("/tmp/", OneOrMore(NoSpaceOrQuote), u, s, i, j);
    case HexAddress => HexMeans(u, s, i, j);
    case DigitRun =>
  }

  // ------------------------------------------------------------------- replacements

  /** A match is taken as long as it goes: a temporary path and a run of digits are matched whole. */
  lemma MatchesAreLongest(p: Pattern, u: Alphabet, s: string, i: nat, j: nat)
    requires (p.TmpPath? || p.DigitRun?) && i < |s| && j <= |s| && Reads(p, u, s, i, j)
    ensures Match(RegexOf(p), u, s, i).Some? && j <= Match(RegexOf(p), u, s, i).value
  {
    PatternsMean(p, u, s, i, j);
    MatchIsAMatch(RegexOf(p), u, s, i);
    if p.TmpPath? {
      var starts := Ends(Word("/tmp/"), u, s, i);
      assert starts == [i + 5] && starts[1..] == [];
      assert Ends(RegexOf(p), u, s, i) == Ends(OneOrMore(NoSpaceOrQuote), u, s, i + 5) + [];
    }
  }

  /** A text that is one match as a whole becomes the marker of its kind. */
  lemma WholeTextIsMarked(p: Pattern, u: Alphabet, s: string)
    requires s != "" && Reads(p, u, s, 0, |s|) && forall j: nat :: j < |s| ==> !Reads(p, u, s, 0, j)
    ensures Sub(p, u, s) == match p
      case IsoTimestamp => "<TS>"
      case EpochTimestamp => "<TS>"
      case ProcPath => "<PROC>"
      case TmpPath => "<TMP>"
      case HexAddress => "<HEX>"
      case DigitRun => "<N>"
  {
    PatternsMean(p, u, s, 0, |s|);
    MatchIsAMatch(RegexOf(p), u, s, 0);
    PatternsMean(p, u, s, 0, Match(RegexOf(p), u, s, 0).value);
    var ends := Matches(p, u, s);
    assert ends[0] == Some(|s|);
    assert Replace(s, ends, Replacement(p), |s|) == "";
  }

  /** A text too short for a kind of match, or with none, is left alone by its pass. */
  lemma NothingToMark(p: Pattern, u: Alphabet, s: string)
    requires forall i: nat, j: nat :: i < |s| && j <= |s| ==> !Reads(p, u, s, i, j)
    ensures Sub(p, u, s) == s
  {
    forall i | 0 <= i < |s|
      ensures Match(RegexOf(p), u, s, i).None?
    {
      MatchIsAMatch(RegexOf(p), u, s, i);
      if Match(RegexOf(p), u, s, i).Some? {
        PatternsMean(p, u, s, i, Match(RegexOf(p), u, s, i).value);
      }
    }
    NoMatchNoChange(s, Matches(p, u, s), Replacement(p), 0);
  }

  lemma ShortTextsAreNoTimestamps(u: Alphabet, s: string)
    ensures |s| < 19 ==> Sub(IsoTimestamp, u, s) == s
    ensures |s| < 10 ==> Sub(EpochTimestamp, u, s) == s
    ensures |s| < 7 ==> Sub(ProcPath, u, s) == s
    ensures |s| < 6 ==> Sub(TmpPath, u, s) == s
    ensures |s| < 3 ==> Sub(HexAddress, u, s) == s
  {
    if |s| < 19 { NothingToMark(IsoTimestamp, u, s); }
    if |s| < 10 { NothingToMark(EpochTimestamp, u, s); }
    if |s| < 7 { NothingToMark(ProcPath, u, s); }
    if |s| < 6 { NothingToMark(TmpPath, u, s); }
    if |s| < 3 { NothingToMark(HexAddress, u, s); }
  }

  /** The markers stay as they are. */
  lemma MarkersStay(u: Alphabet, s: string, p: Pattern)
    requires Sensible(u) && s in {"<TS>", "<PROC>", "<TMP>", "<HEX>", "<N>"}
    ensures Sub(p, u, s) == s
  {
    assert NoDigit(u, s);
    forall i: nat | i < |s|
      ensures !TmpAt(u, s, i)
    {
      if StartsWith(s, i, "/tmp/") {
        assert s[i..i + 5][0] == '/';
      }
    }
    StableIsFixed(p, u, s);
  }

  /**
   * Each pass comes before those that would spoil its matches: one text of each kind, though it holds
   * digits that later passes look for too, becomes the marker of its kind.
   */
  lemma EachKindIsMarked(u: Alphabet)
    requires Sensible(u)
    ensures Normalize(u, "2024-01-02T03:04:05") == "<TS>"
    ensures Normalize(u, "1700000000") == "<TS>"
    ensures Normalize(u, "/proc/7") == "<PROC>"
    ensures Normalize(u, "/tmp/7") == "<TMP>"
    ensures Normalize(u, "0x7") == "<HEX>"
    ensures Normalize(u, "7") == "<N>"
  {
    forall p, s | s in {"<TS>", "<PROC>", "<TMP>", "<HEX>", "<N>"}
      ensures Sub(p, u, s) == s
    {
      MarkersStay(u, s, p);
    }
    IsoIsMarked(u);
    EpochIsMarked(u);
    ProcIsMarked(u);
    TmpIsMarked(u);
    NumbersAreMarked(u);
  }

  lemma IsoIsMarked(u: Alphabet)
    requires Sensible(u)
    ensures Sub(IsoTimestamp, u, "2024-01-02T03:04:05") == "<TS>"
  {
    var s := "2024-01-02T03:04:05";
    assert Boundary(u, s, 0) && Boundary(u, s, 19);
    assert IsDateAndClock(u, s, 0);
    assert IsFraction(u, s, 19, 19) && IsZone(u, s, 19, 19);
    WholeTextIsMarked(IsoTimestamp, u, s);
  }

  lemma EpochIsMarked(u: Alphabet)
    requires Sensible(u)
    ensures Sub(EpochTimestamp, u, Sub(IsoTimestamp, u, "1700000000")) == "<TS>"
  {
    var s := "1700000000";
    ShortTextsAreNoTimestamps(u, s);
    assert Boundary(u, s, 0) && Boundary(u, s, 10);
    assert Digits(u, s, 1, 10) && IsFraction(u, s, 10, 10);
    WholeTextIsMarked(EpochTimestamp, u, s);
  }

  lemma ProcIsMarked(u: Alphabet)
    requires Sensible(u)
    ensures Sub(ProcPath, u, Sub(EpochTimestamp, u, Sub(IsoTimestamp, u, "/proc/7"))) == "<PROC>"
  {
    var s := "/proc/7";
    ShortTextsAreNoTimestamps(u, s);
    assert s[0..6] == "/proc/" && Digits(u, s, 6, 7);
    assert IsProcess(u, s, 6, 7) && forall j: nat :: j < 7 ==> !IsProcess(u, s, 6, j);
    WholeTextIsMarked(ProcPath, u, s);
  }

  lemma TmpIsMarked(u: Alphabet)
    requires Sensible(u)
    ensures Sub(TmpPath, u, Sub(ProcPath, u, Sub(EpochTimestamp, u, Sub(IsoTimestamp, u, "/tmp/7")))) == "<TMP>"
  {
    var s := "/tmp/7";
    ShortTextsAreNoTimestamps(u, s);
    assert s[0..5] == "/tmp/" && Plain(u, s, 5, 6);
    WholeTextIsMarked(TmpPath, u, s);
  }

  lemma NumbersAreMarked(u: Alphabet)
    requires Sensible(u)
    ensures Sub(HexAddress, u, Sub(TmpPath, u, Sub(ProcPath, u, Sub(EpochTimestamp, u, Sub(IsoTimestamp, u, "0x7"))))) == "<HEX>"
    ensures Normalize(u, "7") == "<N>"
  {
    var hex, one := "0x7", "7";
    ShortTextsAreNoTimestamps(u, hex);
    ShortTextsAreNoTimestamps(u, one);
    assert Boundary(u, hex, 0) && Boundary(u, hex, 3) && hex[0..2] == "0x";
    WholeTextIsMarked(HexAddress, u, hex);
    WholeTextIsMarked(DigitRun, u, one);
  }
}
