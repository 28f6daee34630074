/** The part of backtracking regular expressions the output normaliser is written in. */
module Regex {
  import opened Prelude

  /** The digits, word characters and white space of the regular expression engine, ASCII and beyond. */
  datatype Alphabet = Alphabet(digits: set<char>, word: set<char>, space: set<char>)

  predicate InRange(c: char, lo: char, hi: char) {
    lo <= c <= hi
  }

  /** On ASCII the digits are the usual ones; everywhere digits are word characters and no spaces. */
  ghost predicate Sensible(u: Alphabet) {
    && (forall c: char :: c < '\U{0080}' ==> (c in u.digits <==> InRange(c, '0', '9')))
    && u.digits <= u.word
    && u.digits !! u.space
    && '/' !in u.space
  }

  datatype Class =
    | Digit
    | Range(lo: char, hi: char)
    | Hex
    | NoSpaceOrQuote
    | OneOf(chars: string)

  predicate In(u: Alphabet, k: Class, c: char) {
    match k
    case Digit => c in u.digits
    case Range(lo, hi) => InRange(c, lo, hi)
    case Hex => InRange(c, '0', '9') || InRange(c, 'a', 'f') || InRange(c, 'A', 'F')
    case NoSpaceOrQuote => c !in u.space && c != '"' && c != '\'' && c != '`'
    case OneOf(chars) => c in chars
  }

  datatype Regex =
    | Word(text: string)
    | Repeat(chars: Class, min: nat, max: Option<nat>)
    | Then(first: Regex, second: Regex)
    | Either(left: Regex, right: Regex)
    | Optional(body: Regex)
    | WordBoundary

  predicate StartsWith(s: string, i: nat, w: string) {
    i + |w| <= |s| && s[i..i + |w|] == w
  }

  /** A word boundary just before position i. */
  predicate Boundary(u: Alphabet, s: string, i: nat)
    requires i <= |s|
  {
    (i > 0 && s[i - 1] in u.word) != (i < |s| && s[i] in u.word)
  }

  // ----------------------------------------------------------- backtracking

  /** How many characters of the class follow position i. */
  function Run(u: Alphabet, k: Class, s: string, i: nat): (n: nat)
    requires i <= |s|
    ensures i + n <= |s|
    ensures forall j :: i <= j < i + n ==> In(u, k, s[j])
    ensures i + n < |s| ==> !In(u, k, s[i + n])
    decreases |s| - i
  {
    if i < |s| && In(u, k, s[i]) then 1 + Run(u, k, s, i + 1) else 0
  }

  predicate Within(ends: seq<nat>, lo: nat, hi: nat) {
    forall k :: 0 <= k < |ends| ==> lo <= ends[k] <= hi
  }

  function Down(lo: nat, hi: int): (ends: seq<nat>)
    ensures forall e :: e in ends <==> lo <= e <= hi
    ensures forall k :: 0 <= k < |ends| ==> lo <= ends[k] <= hi
    decreases hi
  {
    if hi < lo then [] else [hi] + Down(lo, hi - 1)
  }

  /** Every position where a match from i can end, in the order a backtracking engine tries them. */
  function Ends(r: Regex, u: Alphabet, s: string, i: nat): (ends: seq<nat>)
    requires i <= |s|
    ensures Within(ends, i, |s|)
    decreases r, 0
  {
    match r
    case Word(w) => if StartsWith(s, i, w) then [i + |w|] else []
    case Repeat(k, min, max) =>
      var run := Run(u, k, s, i);
      Down(i + min, i + (if max.Some? && max.value < run then max.value else run))
    case Then(a, b) => Continue(Ends(a, u, s, i), b, u, s, i)
    case Either(a, b) => Ends(a, u, s, i) + Ends(b, u, s, i)
    case Optional(a) => Ends(a, u, s, i) + [i]
    case WordBoundary => if Boundary(u, s, i) then [i] else []
  }

  function Continue(starts: seq<nat>, r: Regex, u: Alphabet, s: string, i: nat): (ends: seq<nat>)
    requires Within(starts, i, |s|)
    ensures Within(ends, i, |s|)
    decreases r, 1 + |starts|
  {
    if starts == [] then [] else Ends(r, u, s, starts[0]) + Continue(starts[1..], r, u, s, i)
  }

  /** The end the engine settles on. */
  function Match(r: Regex, u: Alphabet, s: string, i: nat): (end: Option<nat>)
    requires i <= |s|
    ensures end.Some? ==> i <= end.value <= |s|
  {
    var ends := Ends(r, u, s, i);
    if ends == [] then None else Some(ends[0])
  }

  // ---------------------------------------------------------------- meaning

  /** s[i..j] belongs to the language of r, in its place in s. */
  ghost predicate Accepts(r: Regex, u: Alphabet, s: string, i: nat, j: nat) {
    match r
    case Word(w) => StartsWith(s, i, w) && j == i + |w|
    case Repeat(k, min, max) =>
      && i + min <= j <= |s| && (max.Some? ==> j <= i + max.value)
      && forall n :: i <= n < j ==> In(u, k, s[n])
    case Then(a, b) => exists m: nat :: Accepts(a, u, s, i, m) && Accepts(b, u, s, m, j)
    case Either(a, b) => Accepts(a, u, s, i, j) || Accepts(b, u, s, i, j)
    case Optional(a) => Accepts(a, u, s, i, j) || j == i
    case WordBoundary => j == i <= |s| && Boundary(u, s, i)
  }

  lemma {:induction false} ContinueHolds(starts: seq<nat>, r: Regex, u: Alphabet, s: string, i: nat, j: nat)
    requires Within(starts, i, |s|)
    ensures j in Continue(starts, r, u, s, i) <==> exists m :: m in starts && j in Ends(r, u, s, m)
  {
    if starts == [] {
    } else {
      ContinueHolds(starts[1..], r, u, s, i, j);
      assert starts[0] in starts;
      assert forall m :: m in starts <==> m == starts[0] || m in starts[1..];
      assert j in Continue(starts, r, u, s, i) <==>
             j in Ends(r, u, s, starts[0]) || j in Continue(starts[1..], r, u, s, i);
    }
  }

  /** Backtracking finds every match there is, and nothing else. */
  lemma {:induction false} EndsAreTheMatches(r: Regex, u: Alphabet, s: string, i: nat, j: nat)
    requires i <= |s|
    ensures j in Ends(r, u, s, i) <==> Accepts(r, u, s, i, j)
    decreases r
  {
    match r
    case Word(w) =>
    case Repeat(k, min, max) =>
    case Then(a, b) =>
      ContinueHolds(Ends(a, u, s, i), b, u, s, i, j);
      forall m: nat
        ensures m in Ends(a, u, s, i) && j in Ends(b, u, s, m) <==> Accepts(a, u, s, i, m) && Accepts(b, u, s, m, j)
      {
        EndsAreTheMatches(a, u, s, i, m);
        if m in Ends(a, u, s, i) {
          EndsAreTheMatches(b, u, s, m, j);
        }
      }
    case Either(a, b) =>
      EndsAreTheMatches(a, u, s, i, j);
      EndsAreTheMatches(b, u, s, i, j);
    case Optional(a) =>
      EndsAreTheMatches(a, u, s, i, j);
    case WordBoundary =>
  }

  /** A match is found exactly when there is one, and it is one. */
  lemma MatchIsAMatch(r: Regex, u: Alphabet, s: string, i: nat)
    requires i <= |s|
    ensures Match(r, u, s, i).Some? <==> exists j: nat :: Accepts(r, u, s, i, j)
    ensures Match(r, u, s, i).Some? ==> Accepts(r, u, s, i, Match(r, u, s, i).value)
  {
    var ends := Ends(r, u, s, i);
    if ends != [] {
      assert ends[0] in ends;
      EndsAreTheMatches(r, u, s, i, ends[0]);
    }
    if j: nat :| Accepts(r, u, s, i, j) {
      EndsAreTheMatches(r, u, s, i, j);
    }
  }

  // -------------------------------------------------- what every match needs

  predicate AsciiDigit(c: char) {
    InRange(c, '0', '9')
  }

  predicate DigitsOnly(k: Class) {
    k.Digit? || (k.Range? && AsciiDigit(k.lo) && AsciiDigit(k.hi))
  }

  /** Read off the expression: each match holds a digit. */
  predicate NeedsDigit(r: Regex) {
    match r
    case Word(w) => exists k :: 0 <= k < |w| && AsciiDigit(w[k])
    case Repeat(k, min, _) => min > 0 && DigitsOnly(k)
    case Then(a, b) => NeedsDigit(a) || NeedsDigit(b)
    case Either(a, b) => NeedsDigit(a) && NeedsDigit(b)
    case _ => false
  }

  /** Read off the expression: each match begins with a character that can stand in a path. */
  predicate BeginsInPath(r: Regex) {
    match r
    case Word(w) => w != [] && (w[0] == '/' || AsciiDigit(w[0]))
    case Repeat(k, min, _) => min > 0 && (k.NoSpaceOrQuote? || DigitsOnly(k))
    case Then(a, b) => if a.WordBoundary? then BeginsInPath(b) else BeginsInPath(a)
    case Either(a, b) => BeginsInPath(a) && BeginsInPath(b)
    case _ => false
  }

  lemma {:induction false} AcceptedInBounds(r: Regex, u: Alphabet, s: string, i: nat, j: nat)
    requires Accepts(r, u, s, i, j)
    ensures i <= j && (i <= |s| ==> j <= |s|)
  {
    match r
    case Then(a, b) =>
      var m: nat :| Accepts(a, u, s, i, m) && Accepts(b, u, s, m, j);
      AcceptedInBounds(a, u, s, i, m);
      AcceptedInBounds(b, u, s, m, j);
    case Either(a, b) =>
      if Accepts(a, u, s, i, j) { AcceptedInBounds(a, u, s, i, j); } else { AcceptedInBounds(b, u, s, i, j); }
    case Optional(a) =>
      if Accepts(a, u, s, i, j) { AcceptedInBounds(a, u, s, i, j); }
    case _ =>
  }

  ghost predicate HasDigit(u: Alphabet, s: string, i: nat, j: nat) {
    exists k :: i <= k < j && k < |s| && s[k] in u.digits
  }

  lemma {:induction false} MatchHoldsDigit(r: Regex, u: Alphabet, s: string, i: nat, j: nat)
    requires Sensible(u) && NeedsDigit(r) && Accepts(r, u, s, i, j)
    ensures HasDigit(u, s, i, j)
  {
    match r
    case Word(w) =>
      var k :| 0 <= k < |w| && AsciiDigit(w[k]);
      assert s[i..i + |w|][k] == s[i + k];
    case Repeat(k, min, max) =>
      assert In(u, k, s[i]);
    case Then(a, b) =>
      var m: nat :| Accepts(a, u, s, i, m) && Accepts(b, u, s, m, j);
      AcceptedInBounds(a, u, s, i, m);
      AcceptedInBounds(b, u, s, m, j);
      if NeedsDigit(a) { MatchHoldsDigit(a, u, s, i, m); } else { MatchHoldsDigit(b, u, s, m, j); }
    case Either(a, b) =>
      if Accepts(a, u, s, i, j) { MatchHoldsDigit(a, u, s, i, j); } else { MatchHoldsDigit(b, u, s, i, j); }
  }

  lemma {:induction false} MatchBeginsInPath(r: Regex, u: Alphabet, s: string, i: nat, j: nat)
    requires Sensible(u) && BeginsInPath(r) && Accepts(r, u, s, i, j)
    ensures i < j && i < |s| && In(u, NoSpaceOrQuote, s[i])
  {
    match r
    case Word(w) =>
      assert s[i..i + |w|][0] == s[i];
    case Repeat(k, min, max) =>
      assert In(u, k, s[i]);
    case Then(a, b) =>
      var m: nat :| Accepts(a, u, s, i, m) && Accepts(b, u, s, m, j);
      AcceptedInBounds(b, u, s, m, j);
      if a.WordBoundary? { MatchBeginsInPath(b, u, s, m, j); } else { MatchBeginsInPath(a, u, s, i, m); }
    case Either(a, b) =>
      if Accepts(a, u, s, i, j) { MatchBeginsInPath(a, u, s, i, j); } else { MatchBeginsInPath(b, u, s, i, j); }
  }
}
