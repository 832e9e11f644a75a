/**
 * The release script that copies the package version into the Android build
 * file: the version code is major·10000 + minor·100 + patch, the first
 * `versionName` and `versionCode` assignments are rewritten when they differ,
 * and the file is written only when something changed.
 *
 * The two patterns are `(versionName\s*=?\s*)(["'])([^"']*)\2` and
 * `(versionCode\s*=?\s*)(\d+)`. Each can match at a given position in at most
 * one way (a shorter white-space or content run would leave a character that
 * cannot start the next part), so a match attempt here is a greedy left-to-right
 * scan, and a search takes the leftmost position where the attempt succeeds.
 */
module UpdateVersion {
  import opened Wrappers
  import opened JsStrings
  import opened JsNumbers

  // ---- Version code ----

  /** `parts[i] || 0`: a missing part, `NaN` and 0 all count as 0. */
  function PartOr0(parts: seq<Option<int>>, i: nat): int {
    if i < |parts| && parts[i].Some? then parts[i].value else 0
  }

  /** The version's dot-separated parts, each read by `parseInt`. */
  function VersionParts(version: string): (parts: seq<Option<int>>)
    ensures |parts| == |Split(version, '.')|
  {
    var pieces := Split(version, '.');
    seq(|pieces|, i requires 0 <= i < |pieces| => ParseInt(pieces[i]))
  }

  /** `major * 10000 + minor * 100 + patch`. */
  function VersionCode(version: string): int {
    var parts := VersionParts(version);
    PartOr0(parts, 0) * 10000 + PartOr0(parts, 1) * 100 + PartOr0(parts, 2)
  }

  /** The dot-joined text of three parts. */
  lemma JoinThree(x: string, y: string, z: string)
    ensures Join([x, y, z], ".") == x + "." + y + "." + z
  {
    assert [x, y, z][1..] == [y, z];
    assert [y, z][1..] == [z];
    assert Join([y, z], ".") == y + "." + z;
    assert Join([x, y, z], ".") == x + "." + (y + "." + z);
  }

  lemma NoDotInNumber(n: nat)
    ensures '.' !in NatToString(n)
  {
    var t := NatToString(n);
    assert forall i :: 0 <= i < |t| ==> IsDigit(t[i]);
  }

  /** The parts of `a.b.c` read back as `a`, `b` and `c`. */
  lemma PartsOfTriple(a: nat, b: nat, c: nat)
    ensures VersionParts(NatToString(a) + "." + NatToString(b) + "." + NatToString(c)) == [Some(a), Some(b), Some(c)]
  {
    var version := NatToString(a) + "." + NatToString(b) + "." + NatToString(c);
    SplitOfTriple(a, b, c);
    PartsOfThree(version, NatToString(a), NatToString(b), NatToString(c));
    ParseIntOfNat(a);
    ParseIntOfNat(b);
    ParseIntOfNat(c);
  }

  /** A version of three pieces has the three pieces' readings as its parts. */
  lemma PartsOfThree(version: string, x: string, y: string, z: string)
    requires Split(version, '.') == [x, y, z]
    ensures VersionParts(version) == [ParseInt(x), ParseInt(y), ParseInt(z)]
  {
  }

  /** `a.b.c` splits at its dots into the three numerals. */
  lemma SplitOfTriple(a: nat, b: nat, c: nat)
    ensures Split(NatToString(a) + "." + NatToString(b) + "." + NatToString(c), '.') == [NatToString(a), NatToString(b), NatToString(c)]
  {
    NoDotInNumber(a);
    NoDotInNumber(b);
    NoDotInNumber(c);
    SplitThree(NatToString(a), NatToString(b), NatToString(c));
  }

  /** Three dot-free pieces joined by dots split back into themselves. */
  lemma SplitThree(x: string, y: string, z: string)
    requires '.' !in x && '.' !in y && '.' !in z
    ensures Split(x + "." + y + "." + z, '.') == [x, y, z]
  {
    var parts := [x, y, z];
    forall k | 0 <= k < |parts|
      ensures '.' !in parts[k]
    {
      if k == 0 {
      } else if k == 1 {
      } else {
        assert parts[k] == z;
      }
    }
    JoinThree(x, y, z);
    SplitJoin(parts, '.');
    assert ['.'] == ".";
  }

  /** A dotted release number `a.b.c` gives `a·10000 + b·100 + c`. */
  lemma VersionCodeOfTriple(a: nat, b: nat, c: nat)
    ensures VersionCode(NatToString(a) + "." + NatToString(b) + "." + NatToString(c)) == a * 10000 + b * 100 + c
  {
    PartsOfTriple(a, b, c);
  }

  /** With minor and patch below 100, distinct versions get distinct codes. */
  lemma VersionCodeInjective(a: nat, b: nat, c: nat, x: nat, y: nat, z: nat)
    requires b < 100 && c < 100 && y < 100 && z < 100
    requires a * 10000 + b * 100 + c == x * 10000 + y * 100 + z
    ensures a == x && b == y && c == z
  {
    assert a * 10000 + b * 100 + c == (a * 100 + b) * 100 + c;
    assert x * 10000 + y * 100 + z == (x * 100 + y) * 100 + z;
    SplitBase100(a * 100 + b, c, x * 100 + y, z);
    SplitBase100(a, b, x, y);
  }

  /** A number below 100 is the last base-100 digit. */
  lemma SplitBase100(q: int, r: int, q2: int, r2: int)
    requires 0 <= r < 100 && 0 <= r2 < 100 && q * 100 + r == q2 * 100 + r2
    ensures q == q2 && r == r2
  {
  }

  lemma SmallNumerals()
    ensures NatToString(2) + "." + NatToString(0) + "." + NatToString(2) == "2.0.2"
  {
    assert DigitChar(2) == '2' && DigitChar(0) == '0';
  }

  /** `2.0.2` gives 20002. */
  lemma VersionCodeExample()
    ensures VersionCode("2.0.2") == 20002
  {
    SmallNumerals();
    VersionCodeOfTriple(2, 0, 2);
  }

  // ---- Pattern scanning ----

  /** Both keys are eleven characters long. */
  const KeyLength: nat := 11

  /** `s` starts with `version`, the keys' common stem, and is long enough to hold a key. */
  predicate VersionStemAt(s: string) {
    |s| >= KeyLength && s[0] == 'v' && s[1] == 'e' && s[2] == 'r' && s[3] == 's' && s[4] == 'i' && s[5] == 'o' && s[6] == 'n'
  }

  /** `s` starts with `versionName`. */
  predicate NameKeyAt(s: string) {
    VersionStemAt(s) && s[7] == 'N' && s[8] == 'a' && s[9] == 'm' && s[10] == 'e'
  }

  /** `s` starts with `versionCode`. */
  predicate CodeKeyAt(s: string) {
    VersionStemAt(s) && s[7] == 'C' && s[8] == 'o' && s[9] == 'd' && s[10] == 'e'
  }

  predicate IsQuote(c: char) {
    c == '"' || c == '\''
  }

  /** Where the run of characters other than quotes (`[^"']*`) starting at `i` ends. */
  function SkipNonQuote(s: string, i: nat): (r: nat)
    requires i <= |s|
    ensures i <= r <= |s|
    ensures forall k :: i <= k < r ==> !IsQuote(s[k])
    ensures r < |s| ==> IsQuote(s[r])
    decreases |s| - i
  {
    if i < |s| && !IsQuote(s[i]) then SkipNonQuote(s, i + 1) else i
  }

  /** Where the run of digits (`\d*`) starting at `i` ends. */
  function SkipDigits(s: string, i: nat): (r: nat)
    requires i <= |s|
    ensures i <= r <= |s|
    ensures forall k :: i <= k < r ==> IsDigit(s[k])
    ensures r < |s| ==> !IsDigit(s[r])
    decreases |s| - i
  {
    if i < |s| && IsDigit(s[i]) then SkipDigits(s, i + 1) else i
  }

  /** Where `\s*=?\s*` starting at `i` ends. */
  function AssignEnd(s: string, i: nat): (r: nat)
    requires i <= |s|
    ensures i <= r <= |s|
    ensures forall k :: i <= k < r ==> IsWhitespace(s[k]) || s[k] == '='
    ensures r < |s| ==> !IsWhitespace(s[r])
  {
    var a := SkipWs(s, i);
    if a < |s| && s[a] == '=' then SkipWs(s, a + 1) else a
  }

  /** The text between a key and its value: white space with at most one `=` among it. */
  predicate AssignShape(s: string, i: nat, r: nat) {
    i <= r <= |s|
    && (forall k :: i <= k < r ==> IsWhitespace(s[k]) || s[k] == '=')
    && (forall k, m :: i <= k < m < r ==> !(s[k] == '=' && s[m] == '='))
  }

  /** The outcome of one match attempt: where the part the script reads lies, relative to the attempt's start. */
  datatype Hit = Miss | Hit(lo: nat, hi: nat)

  /** The name pattern at the start of `s`, as the regular expression reads it: the key, at most one `=` among white space, a quote, non-quote content and the same quote. */
  predicate NameParse(s: string, open: nat, close: nat) {
    NameKeyAt(s) && KeyLength <= open < close < |s|
    && AssignShape(s, KeyLength, open)
    && IsQuote(s[open]) && s[close] == s[open]
    && (forall k :: open < k < close ==> !IsQuote(s[k]))
  }

  /** The code pattern at the start of `s`: the key, at most one `=` among white space, and a maximal run of digits. */
  predicate CodeParse(s: string, digits: nat, end: nat) {
    CodeKeyAt(s) && KeyLength <= digits < end <= |s|
    && AssignShape(s, KeyLength, digits)
    && (forall k :: digits <= k < end ==> IsDigit(s[k]))
    && (end < |s| ==> !IsDigit(s[end]))
  }

  /** A match attempt of the name pattern at the start of `s`: where its two quotes are. */
  function AttemptName(s: string): (r: Hit)
    ensures r.Hit? ==> NameKeyAt(s) && KeyLength <= r.lo < r.hi < |s|
    ensures r.Hit? ==> IsQuote(s[r.lo]) && s[r.hi] == s[r.lo]
  {
    if !NameKeyAt(s) then Miss
    else
      var open := AssignEnd(s, KeyLength);
      if open < |s| && IsQuote(s[open]) then
        var close := SkipNonQuote(s, open + 1);
        if close < |s| && s[close] == s[open] then Hit(open, close) else Miss
      else Miss
  }

  /** A match attempt of the code pattern at the start of `s`: where its digits start and end. */
  function AttemptCode(s: string): (r: Hit)
    ensures r.Hit? ==> CodeKeyAt(s) && KeyLength <= r.lo < r.hi <= |s|
  {
    if !CodeKeyAt(s) then Miss
    else
      var digits := AssignEnd(s, KeyLength);
      var end := SkipDigits(s, digits);
      if end > digits then Hit(digits, end) else Miss
  }

  /** The white space and `=` after a key are what the regular expression allows there. */
  lemma AssignEndShape(s: string, i: nat)
    requires i <= |s|
    ensures AssignShape(s, i, AssignEnd(s, i))
  {
    var a := SkipWs(s, i);
    if a < |s| && s[a] == '=' {
      var b := SkipWs(s, a + 1);
      forall k, m | i <= k < m < b
        ensures !(s[k] == '=' && s[m] == '=')
      {
        assert k != a ==> s[k] != '=';
      }
    }
  }

  /** The white space and `=` between a key and what follows can be split in one way only. */
  lemma AssignEndUnique(s: string, i: nat, r: nat)
    requires AssignShape(s, i, r) && r < |s|
    requires !IsWhitespace(s[r]) && s[r] != '='
    ensures AssignEnd(s, i) == r
  {
    var a := SkipWs(s, i);
    SkipWsIs(s, i, a);
    if a < r {
      assert s[a] == '=';
      assert forall k :: a < k < r ==> IsWhitespace(s[k]);
      SkipWsIs(s, a + 1, r);
    } else {
      SkipWsIs(s, i, r);
    }
  }

  lemma SkipNonQuoteIs(s: string, i: nat, r: nat)
    requires i <= r <= |s| && (forall k :: i <= k < r ==> !IsQuote(s[k]))
    requires r < |s| ==> IsQuote(s[r])
    ensures SkipNonQuote(s, i) == r
  {
  }

  lemma SkipDigitsIs(s: string, i: nat, r: nat)
    requires i <= r <= |s| && (forall k :: i <= k < r ==> IsDigit(s[k]))
    requires r < |s| ==> !IsDigit(s[r])
    ensures SkipDigits(s, i) == r
  {
  }

  /** A successful name attempt is a match of the regular expression, and every match of it is the one the attempt finds. */
  lemma AttemptNameIff(s: string, open: nat, close: nat)
    ensures AttemptName(s) == Hit(open, close) <==> NameParse(s, open, close)
  {
    if AttemptName(s) == Hit(open, close) {
      AssignEndShape(s, KeyLength);
    }
    if NameParse(s, open, close) {
      AssignEndUnique(s, KeyLength, open);
      SkipNonQuoteIs(s, open + 1, close);
    }
  }

  /** The same for the code pattern. */
  lemma AttemptCodeIff(s: string, digits: nat, end: nat)
    ensures AttemptCode(s) == Hit(digits, end) <==> CodeParse(s, digits, end)
  {
    if AttemptCode(s) == Hit(digits, end) {
      AssignEndShape(s, KeyLength);
    }
    if CodeParse(s, digits, end) {
      AssignEndUnique(s, KeyLength, digits);
      SkipDigitsIs(s, digits, end);
    }
  }

  // ---- Locality of a match attempt ----

  /** The keys' letters: a key has no second `v` that could start another key, and none of its letters is a digit, a quote, white space or `=`. */
  lemma KeyLetters(s: string)
    ensures NameKeyAt(s) || CodeKeyAt(s) ==> forall i :: 1 <= i < KeyLength ==> s[i] != 'v'
    ensures NameKeyAt(s) || CodeKeyAt(s) ==>
      forall i :: 0 <= i < KeyLength ==> !IsDigit(s[i]) && !IsQuote(s[i]) && !IsWhitespace(s[i]) && s[i] != '='
  {
  }

  /** `x` and `y` have the same first `n` characters. */
  predicate AgreeBelow(x: string, y: string, n: nat) {
    n <= |x| && n <= |y| && forall k :: 0 <= k < n ==> x[k] == y[k]
  }

  lemma SkipWsAgree(x: string, y: string, i: nat, n: nat)
    requires i <= n < |x| && n < |y| && AgreeBelow(x, y, n)
    requires !IsWhitespace(x[n]) && !IsWhitespace(y[n])
    ensures SkipWs(x, i) == SkipWs(y, i) <= n
  {
    var r := SkipWs(x, i);
    assert r <= n;
    assert r < n ==> y[r] == x[r];
    SkipWsIs(y, i, r);
  }

  lemma SkipNonQuoteAgree(x: string, y: string, i: nat, n: nat)
    requires i <= n < |x| && n < |y| && AgreeBelow(x, y, n)
    requires IsQuote(x[n]) && IsQuote(y[n])
    ensures SkipNonQuote(x, i) == SkipNonQuote(y, i) <= n
  {
    var r := SkipNonQuote(x, i);
    assert r <= n;
    assert r < n ==> y[r] == x[r];
    SkipNonQuoteIs(y, i, r);
  }

  /** Two texts that agree before a character at `n` that is neither space nor `=` end the `\s*=?\s*` run at the same place. */
  lemma AssignEndAgree(x: string, y: string, i: nat, n: nat)
    requires i <= n < |x| && n < |y| && AgreeBelow(x, y, n)
    requires !IsWhitespace(x[n]) && x[n] != '=' && !IsWhitespace(y[n]) && y[n] != '='
    ensures AssignEnd(x, i) == AssignEnd(y, i) <= n
  {
    SkipWsAgree(x, y, i, n);
    var a := SkipWs(x, i);
    assert a < n ==> y[a] == x[a];
    if x[a] == '=' {
      SkipWsAgree(x, y, a + 1, n);
    }
  }

  /** A name attempt is decided by the text up to a quote at `n` that comes after its opening quote. */
  lemma NameAttemptAgree(x: string, y: string, n: nat)
    requires n < |x| && n < |y| && AgreeBelow(x, y, n + 1) && IsQuote(x[n])
    requires NameKeyAt(x) ==> AssignEnd(x, KeyLength) < n
    ensures AttemptName(x) == AttemptName(y)
  {
    if n < KeyLength {
      KeyLetters(x);
      KeyLetters(y);
      assert x[n] == y[n];
    } else {
      NameAttemptAgreeKeyed(x, y, n);
    }
  }

  /** `NameAttemptAgree` when the quote lies after where a key would end. */
  lemma NameAttemptAgreeKeyed(x: string, y: string, n: nat)
    requires KeyLength <= n < |x| && n < |y| && AgreeBelow(x, y, n + 1) && IsQuote(x[n])
    requires NameKeyAt(x) ==> AssignEnd(x, KeyLength) < n
    ensures AttemptName(x) == AttemptName(y)
  {
    assert forall i :: 0 <= i < KeyLength ==> x[i] == y[i];
    if NameKeyAt(x) {
      AssignEndAgree(x, y, KeyLength, n);
      var a := AssignEnd(x, KeyLength);
      if IsQuote(x[a]) {
        SkipNonQuoteAgree(x, y, a + 1, n);
      }
    }
  }

  /** Digit strings: what the code step writes and what it replaces. */
  predicate AllDigits(d: string) {
    forall k :: 0 <= k < |d| ==> IsDigit(d[k])
  }

  /** A key cannot start where a run of digits begins: neither attempt succeeds there, and neither does one whose key would run into the digits. */
  lemma KeyBeforeDigits(q: string, d: string, t: string)
    requires |d| > 0 && AllDigits(d) && |q| < 11
    ensures !NameKeyAt(q + d + t) && !CodeKeyAt(q + d + t)
  {
    var x := q + d + t;
    KeyLetters(x);
    assert x[|q|] == d[0];
  }

  /** Replacing one non-empty run of digits by another does not change whether a code attempt that starts before it succeeds. */
  lemma CodeSwap(q: string, d: string, d2: string, t: string)
    requires |d| > 0 && |d2| > 0 && AllDigits(d) && AllDigits(d2)
    ensures AttemptCode(q + d + t).Miss? <==> AttemptCode(q + d2 + t).Miss?
  {
    var x, y := q + d + t, q + d2 + t;
    assert x[|q|] == d[0] && y[|q|] == d2[0];
    if |q| < 11 {
      KeyBeforeDigits(q, d, t);
      KeyBeforeDigits(q, d2, t);
    } else {
      assert forall i :: 0 <= i < KeyLength ==> x[i] == q[i] == y[i];
      if CodeKeyAt(x) {
        CodeSwapKeyed(q, d, d2, t);
      }
    }
  }

  /** A code attempt succeeds when its key is followed by `\s*=?\s*` and a digit. */
  lemma CodeAttemptShape(s: string)
    ensures AttemptCode(s).Hit? <==>
      CodeKeyAt(s) && AssignEnd(s, KeyLength) < |s| && IsDigit(s[AssignEnd(s, KeyLength)])
  {
  }

  /** `CodeSwap` when the key lies before the digits. */
  lemma CodeSwapKeyed(q: string, d: string, d2: string, t: string)
    requires |d| > 0 && |d2| > 0 && AllDigits(d) && AllDigits(d2)
    requires |q| >= KeyLength && CodeKeyAt(q + d + t)
    ensures AttemptCode(q + d + t).Miss? <==> AttemptCode(q + d2 + t).Miss?
  {
    var x, y := q + d + t, q + d2 + t;
    assert x[|q|] == d[0] && y[|q|] == d2[0];
    assert AgreeBelow(x, y, |q|);
    assert CodeKeyAt(y);
    AssignEndAgree(x, y, KeyLength, |q|);
    var a := AssignEnd(x, KeyLength);
    assert a < |q| ==> x[a] == y[a];
    CodeAttemptShape(x);
    CodeAttemptShape(y);
  }

  /** The same for a name attempt: whether it succeeds does not depend on the digits. */
  lemma NameSwap(q: string, d: string, d2: string, t: string)
    requires |d| > 0 && |d2| > 0 && AllDigits(d) && AllDigits(d2)
    ensures AttemptName(q + d + t).Miss? <==> AttemptName(q + d2 + t).Miss?
  {
    var x, y := q + d + t, q + d2 + t;
    assert x[|q|] == d[0] && y[|q|] == d2[0];
    if |q| < 11 {
      KeyBeforeDigits(q, d, t);
      KeyBeforeDigits(q, d2, t);
    } else {
      assert forall i :: 0 <= i < KeyLength ==> x[i] == q[i] == y[i];
      if NameKeyAt(x) {
        NameSwapKeyed(q, d, d2, t);
      }
    }
  }

  /** `NameSwap` when the key lies before the digits. */
  lemma NameSwapKeyed(q: string, d: string, d2: string, t: string)
    requires |d| > 0 && |d2| > 0 && AllDigits(d) && AllDigits(d2)
    requires |q| >= KeyLength && NameKeyAt(q + d + t)
    ensures AttemptName(q + d + t).Miss? <==> AttemptName(q + d2 + t).Miss?
  {
    var x, y := q + d + t, q + d2 + t;
    SwapKeyed(q, d, d2, t);
    var a := AssignEnd(x, KeyLength);
    NameAttemptShape(x);
    NameAttemptShape(y);
    if a < |q| && IsQuote(q[a]) {
      NameSwapContent(q, d, d2, t, a);
    }
  }

  /** Around a digit swap after a key, the key is kept and `\s*=?\s*` ends at the same place, on the same character or on a digit of each. */
  lemma SwapKeyed(q: string, d: string, d2: string, t: string)
    requires |d| > 0 && |d2| > 0 && AllDigits(d) && AllDigits(d2)
    requires |q| >= KeyLength && NameKeyAt(q + d + t)
    ensures var x, y := q + d + t, q + d2 + t;
      var a := AssignEnd(x, KeyLength);
      NameKeyAt(y) && a == AssignEnd(y, KeyLength) <= |q|
      && (a < |q| ==> x[a] == q[a] && y[a] == q[a])
      && (a == |q| ==> IsDigit(x[a]) && IsDigit(y[a]))
  {
    var x, y := q + d + t, q + d2 + t;
    assert x[|q|] == d[0] && y[|q|] == d2[0];
    assert AgreeBelow(x, y, |q|);
    assert NameKeyAt(y);
    AssignEndAgree(x, y, KeyLength, |q|);
  }

  /** A name attempt succeeds when its key is followed by `\s*=?\s*`, a quote, non-quotes and the same quote. */
  lemma NameAttemptShape(s: string)
    ensures AttemptName(s).Hit? <==>
      NameKeyAt(s) && var a := AssignEnd(s, KeyLength);
      a < |s| && IsQuote(s[a]) && var c := SkipNonQuote(s, a + 1);
      c < |s| && s[c] == s[a]
  {
  }

  /** The content scan of `NameSwap`, from an opening quote at `a` inside `q`. */
  lemma NameSwapContent(q: string, d: string, d2: string, t: string, a: nat)
    requires |d| > 0 && |d2| > 0 && AllDigits(d) && AllDigits(d2)
    requires a < |q| && IsQuote(q[a])
    ensures var x, y := q + d + t, q + d2 + t;
      var c, c2 := SkipNonQuote(x, a + 1), SkipNonQuote(y, a + 1);
      (c < |x| && x[c] == q[a]) <==> (c2 < |y| && y[c2] == q[a])
  {
    var x, y := q + d + t, q + d2 + t;
    var c := SkipNonQuote(x, a + 1);
    if c < |q| {
      assert x[c] == y[c];
      assert AgreeBelow(x, y, c);
      SkipNonQuoteAgree(x, y, a + 1, c);
    } else {
      assert forall k :: |q| <= k < |q| + |d| ==> x[k] == d[k - |q|];
      assert c >= |q| + |d|;
      var r := c - |q| - |d|;
      forall k | a + 1 <= k < |q| + |d2| + r
        ensures !IsQuote(y[k])
      {
        if k < |q| {
          assert y[k] == x[k];
        } else if k < |q| + |d2| {
          assert y[k] == d2[k - |q|];
        } else {
          assert y[k] == t[k - |q| - |d2|] == x[k - |d2| + |d|];
        }
      }
      if c < |x| {
        assert x[c] == t[r] == y[|q| + |d2| + r];
      }
      SkipNonQuoteIs(y, a + 1, |q| + |d2| + r);
    }
  }

  // ---- First match and replacement ----

  datatype Pattern = NamePattern | CodePattern

  function Attempt(pattern: Pattern, s: string): Hit {
    match pattern
    case NamePattern => AttemptName(s)
    case CodePattern => AttemptCode(s)
  }

  /** The first position at or after `j` where the attempt succeeds. */
  function SearchFrom(pattern: Pattern, g: string, j: nat): (r: Option<nat>)
    requires j <= |g| + 1
    ensures r.Some? ==> j <= r.value <= |g| && Attempt(pattern, g[r.value..]).Hit?
    decreases |g| + 1 - j
  {
    if j > |g| then None
    else if Attempt(pattern, g[j..]).Hit? then Some(j)
    else SearchFrom(pattern, g, j + 1)
  }

  /** The leftmost position where the pattern matches, as a regular expression without the global flag searches. */
  function Search(pattern: Pattern, g: string): (r: Option<nat>)
    ensures r.Some? ==> r.value <= |g| && Attempt(pattern, g[r.value..]).Hit?
  {
    SearchFrom(pattern, g, 0)
  }

  lemma {:induction false} SearchFromMisses(pattern: Pattern, g: string, j: nat, k: nat)
    requires j <= k <= |g|
    requires SearchFrom(pattern, g, j).Some? ==> k < SearchFrom(pattern, g, j).value
    ensures Attempt(pattern, g[k..]).Miss?
    decreases k - j
  {
    if j < k {
      SearchFromMisses(pattern, g, j + 1, k);
    }
  }

  /** The pattern matches nowhere before the position the search finds, and nowhere at all when it finds none. */
  lemma SearchMisses(pattern: Pattern, g: string, k: nat)
    requires k <= |g|
    requires Search(pattern, g).Some? ==> k < Search(pattern, g).value
    ensures Attempt(pattern, g[k..]).Miss?
  {
    SearchFromMisses(pattern, g, 0, k);
  }

  /** Every position before the one the search finds is a miss. */
  lemma SearchMissesBefore(pattern: Pattern, g: string, p: nat)
    requires Search(pattern, g) == Some(p)
    ensures forall k :: 0 <= k < p ==> Attempt(pattern, g[k..]).Miss?
  {
    forall k | 0 <= k < p
      ensures Attempt(pattern, g[k..]).Miss?
    {
      SearchMisses(pattern, g, k);
    }
  }

  lemma {:induction false} SearchFromIs(pattern: Pattern, g: string, j: nat, p: nat)
    requires j <= p <= |g| && Attempt(pattern, g[p..]).Hit?
    requires forall k :: j <= k < p ==> Attempt(pattern, g[k..]).Miss?
    ensures SearchFrom(pattern, g, j) == Some(p)
    decreases p - j
  {
    if j < p {
      assert Attempt(pattern, g[j..]).Miss?;
      SearchFromIs(pattern, g, j + 1, p);
    }
  }

  /** A position where the pattern matches and before which it does not is the one the search finds. */
  lemma SearchIs(pattern: Pattern, g: string, p: nat)
    requires p <= |g| && Attempt(pattern, g[p..]).Hit?
    requires forall k :: 0 <= k < p ==> Attempt(pattern, g[k..]).Miss?
    ensures Search(pattern, g) == Some(p)
  {
    SearchFromIs(pattern, g, 0, p);
  }

  /** A match in absolute positions: where it starts, and the two ends of the part the script reads (the quotes around the name, or the digits of the code). */
  datatype Found = NotFound | Found(start: nat, lo: nat, hi: nat)

  /** `g.match(regex)` for the given pattern. */
  function First(pattern: Pattern, g: string): (r: Found)
    ensures r.Found? ==> r.start < r.lo < r.hi <= |g|
    ensures r.Found? && pattern == NamePattern ==> r.hi < |g| && IsQuote(g[r.lo]) && g[r.hi] == g[r.lo]
  {
    var p := Search(pattern, g);
    if p.None? then NotFound
    else
      var a := Attempt(pattern, g[p.value..]);
      Found(p.value, p.value + a.lo, p.value + a.hi)
  }

  /** The attempt at `p` succeeds, with its part at `lo..hi` in absolute positions. */
  predicate HitAt(pattern: Pattern, g: string, p: nat, lo: nat, hi: nat) {
    p <= |g| && Attempt(pattern, g[p..]).Hit? && p + Attempt(pattern, g[p..]).lo == lo && p + Attempt(pattern, g[p..]).hi == hi
  }

  /** A found match is the search's position and that position's attempt. */
  lemma FirstParts(pattern: Pattern, g: string)
    requires First(pattern, g).Found?
    ensures var f := First(pattern, g);
      Search(pattern, g) == Some(f.start) && HitAt(pattern, g, f.start, f.lo, f.hi)
  {
  }

  /** Text between the quotes (`match[3]`) of a name match. */
  function NameContent(g: string, f: Found): string
    requires f.Found? && f.lo < f.hi <= |g|
  {
    g[f.lo + 1..f.hi]
  }

  /** `parseInt(match[2])` of a code match. */
  function CodeValue(g: string, f: Found): Option<int>
    requires f.Found? && f.lo <= f.hi <= |g|
  {
    ParseInt(g[f.lo..f.hi])
  }

  /** The first `versionName` assignment already reads `version`, or there is none. */
  predicate NameSettled(g: string, version: string) {
    var f := First(NamePattern, g);
    f.NotFound? || NameContent(g, f) == version
  }

  /** The first `versionCode` assignment already reads `code`, or there is none. */
  predicate CodeSettled(g: string, code: int) {
    var f := First(CodePattern, g);
    f.NotFound? || CodeValue(g, f) == Some(code)
  }

  /** The text after one rewrite, and whether it changed. */
  datatype Step = Step(text: string, changed: bool)

  /** Step 1: rewrite the first `versionName` when its content differs. The replacement `$1${quote}${version}${quote}` keeps the key, the `=` and the quote kind, so only the text between the quotes changes. */
  function NameStep(g: string, version: string): (r: Step)
    ensures r.changed <==> !NameSettled(g, version)
    ensures !r.changed ==> r.text == g
    ensures r.changed ==> var f := First(NamePattern, g);
      r.text == g[..f.lo + 1] + version + g[f.hi..]
  {
    var f := First(NamePattern, g);
    if f.NotFound? || NameContent(g, f) == version then Step(g, false)
    else Step(g[..f.lo + 1] + version + g[f.hi..], true)
  }

  /** Step 2: rewrite the digits of the first `versionCode` when their value differs; `$1${versionCode}` keeps the key and the `=`. */
  function CodeStep(g: string, code: int): (r: Step)
    ensures r.changed <==> !CodeSettled(g, code)
    ensures !r.changed ==> r.text == g
    ensures r.changed ==> var f := First(CodePattern, g);
      r.text == g[..f.lo] + IntToString(code) + g[f.hi..]
  {
    var f := First(CodePattern, g);
    if f.NotFound? || CodeValue(g, f) == Some(code) then Step(g, false)
    else Step(g[..f.lo] + IntToString(code) + g[f.hi..], true)
  }

  // ---- Each step settles its own field ----

  predicate QuoteFree(v: string) {
    forall k :: 0 <= k < |v| ==> !IsQuote(v[k])
  }

  /** `versionCode` occurs somewhere in `v`. */
  predicate MentionsCodeKey(v: string) {
    exists i :: 0 <= i <= |v| && CodeKeyAt(v[i..])
  }

  /** An attempt that starts before a key at `p` ends its white space at `p` at the latest. */
  lemma AssignEndBeforeKey(x: string, m: nat)
    requires NameKeyAt(x) || CodeKeyAt(x)
    requires 1 <= m < |x| && x[m] == 'v'
    ensures m >= KeyLength && AssignEnd(x, KeyLength) <= m
  {
    KeyLetters(x);
  }

  /** Rewriting the content of the first name match does not create a match further left. */
  lemma NameRewriteBefore(g: string, v: string, p: nat, lo: nat, hi: nat, k: nat)
    requires p < lo < hi < |g| && IsQuote(g[lo]) && g[hi] == g[lo]
    requires NameKeyAt(g[p..]) && p + 11 <= lo
    requires k < p && AttemptName(g[k..]).Miss?
    ensures AttemptName((g[..lo + 1] + v + g[hi..])[k..]).Miss?
  {
    var g1 := g[..lo + 1] + v + g[hi..];
    var x, y := g[k..], g1[k..];
    var n := lo - k;
    assert AgreeBelow(x, y, n + 1) by {
      forall i | 0 <= i < n + 1 ensures x[i] == y[i] {
        assert x[i] == g[k + i] && y[i] == g1[k + i];
      }
    }
    assert x[n] == g[lo];
    if NameKeyAt(x) {
      assert x[p - k] == g[p] == g[p..][0] == 'v';
      AssignEndBeforeKey(x, p - k);
    }
    NameAttemptAgree(x, y, n);
  }

  /** The text from `p` on, after `g[a..b]` is replaced by `v`: the old text up to `a`, then `v`, then the old text from `b`. */
  lemma SpliceAt(g: string, v: string, a: nat, b: nat, p: nat)
    requires p <= a <= b <= |g|
    ensures var x, y := g[p..], (g[..a] + v + g[b..])[p..];
      |y| == a - p + |v| + (|g| - b)
      && AgreeBelow(x, y, a - p)
      && (forall i :: a - p <= i < a - p + |v| ==> y[i] == v[i - (a - p)])
      && (forall i :: a - p + |v| <= i < |y| ==> y[i] == g[i - (a - p) - |v| + b])
  {
    assert (g[..a] + v + g[b..])[p..] == g[p..a] + v + g[b..];
  }

  /** A name match survives a change of the text after its opening quote that leaves a closing quote at `close`. */
  lemma NameParseMoved(x: string, y: string, n: nat, c: nat, close: nat)
    requires NameParse(x, n, c) && AgreeBelow(x, y, n + 1)
    requires n < close < |y| && y[close] == x[n]
    requires forall k :: n < k < close ==> !IsQuote(y[k])
    ensures NameParse(y, n, close)
  {
    assert forall k :: 0 <= k < KeyLength ==> y[k] == x[k];
  }

  /** A code match survives a change of the text from its digits on that leaves a maximal run of digits from `n` to `end`. */
  lemma CodeParseMoved(x: string, y: string, n: nat, e: nat, end: nat)
    requires CodeParse(x, n, e) && AgreeBelow(x, y, n)
    requires n < end <= |y| && (forall k :: n <= k < end ==> IsDigit(y[k]))
    requires end < |y| ==> !IsDigit(y[end])
    ensures CodeParse(y, n, end)
  {
    assert forall k :: 0 <= k < KeyLength ==> y[k] == x[k];
  }

  /** After the rewrite the match at the same place has the new version between its quotes. */
  lemma NameRewriteAt(g: string, v: string, p: nat, lo: nat, hi: nat)
    requires p < lo < hi < |g| && QuoteFree(v)
    requires HitAt(NamePattern, g, p, lo, hi)
    ensures HitAt(NamePattern, g[..lo + 1] + v + g[hi..], p, lo, lo + 1 + |v|)
  {
    var g1 := g[..lo + 1] + v + g[hi..];
    var x, y := g[p..], g1[p..];
    var n, close := lo - p, lo - p + 1 + |v|;
    SpliceAt(g, v, lo + 1, hi, p);
    AttemptNameIff(x, n, hi - p);
    assert x[hi - p] == g[hi] == y[close];
    NameParseMoved(x, y, n, hi - p, close);
    AttemptNameIff(y, n, close);
  }

  /** The first name match after the rewrite is the rewritten one. */
  lemma NameRewriteFirst(g: string, v: string, p: nat, lo: nat, hi: nat)
    requires p < lo < hi < |g| && QuoteFree(v)
    requires Search(NamePattern, g) == Some(p) && HitAt(NamePattern, g, p, lo, hi)
    ensures First(NamePattern, g[..lo + 1] + v + g[hi..]) == Found(p, lo, lo + 1 + |v|)
  {
    var g1 := g[..lo + 1] + v + g[hi..];
    forall k | 0 <= k < p
      ensures Attempt(NamePattern, g1[k..]).Miss?
    {
      SearchMisses(NamePattern, g, k);
      NameRewriteBefore(g, v, p, lo, hi, k);
    }
    NameRewriteAt(g, v, p, lo, hi);
    SearchIs(NamePattern, g1, p);
  }

  /** Step 1 leaves the first `versionName` reading `version`. */
  lemma NameStepSettles(g: string, v: string)
    requires QuoteFree(v)
    ensures NameSettled(NameStep(g, v).text, v)
  {
    if NameStep(g, v).changed {
      var f := First(NamePattern, g);
      FirstParts(NamePattern, g);
      NameRewriteSettles(g, v, f.start, f.lo, f.hi, NameStep(g, v).text);
    }
  }

  /** Rewriting the first match leaves a text whose first match reads the new name. */
  lemma NameRewriteSettles(g: string, v: string, p: nat, lo: nat, hi: nat, t: string)
    requires p < lo < hi < |g| && QuoteFree(v)
    requires Search(NamePattern, g) == Some(p) && HitAt(NamePattern, g, p, lo, hi)
    requires t == g[..lo + 1] + v + g[hi..]
    ensures NameSettled(t, v)
  {
    NameRewriteFirst(g, v, p, lo, hi);
    NameSettledAfter(g, v, p, lo, hi);
  }

  /** Once the first match of the rewritten text is the rewritten one, the text is settled. */
  lemma NameSettledAfter(g: string, v: string, p: nat, lo: nat, hi: nat)
    requires lo < hi <= |g|
    requires First(NamePattern, g[..lo + 1] + v + g[hi..]) == Found(p, lo, lo + 1 + |v|)
    ensures NameSettled(g[..lo + 1] + v + g[hi..], v)
  {
    NameRewriteReads(g, v, lo, hi);
    NameSettledBy(g[..lo + 1] + v + g[hi..], v, Found(p, lo, lo + 1 + |v|));
  }

  lemma NameRewriteReads(g: string, v: string, lo: nat, hi: nat)
    requires lo < hi <= |g|
    ensures (g[..lo + 1] + v + g[hi..])[lo + 1..lo + 1 + |v|] == v
  {
  }

  /** The digits of a code match at `p`, in absolute positions. */
  lemma CodeDigits(g: string, p: nat, lo: nat, hi: nat)
    requires HitAt(CodePattern, g, p, lo, hi)
    ensures lo < hi <= |g| && AllDigits(g[lo..hi])
    ensures hi < |g| ==> !IsDigit(g[hi])
  {
    var x := g[p..];
    AttemptCodeIff(x, lo - p, hi - p);
    assert forall k :: lo <= k < hi ==> g[k] == x[k - p];
    assert hi < |g| ==> g[hi] == x[hi - p];
  }

  /** Rewriting the digits of the first code match does not create a match further left. */
  lemma CodeRewriteBefore(g: string, d: string, lo: nat, hi: nat, k: nat)
    requires k <= lo < hi <= |g| && AllDigits(g[lo..hi]) && |d| > 0 && AllDigits(d)
    requires AttemptCode(g[k..]).Miss?
    ensures AttemptCode((g[..lo] + d + g[hi..])[k..]).Miss?
  {
    assert g[k..] == g[k..lo] + g[lo..hi] + g[hi..];
    assert (g[..lo] + d + g[hi..])[k..] == g[k..lo] + d + g[hi..];
    CodeSwap(g[k..lo], g[lo..hi], d, g[hi..]);
  }

  /** After the rewrite the match at the same place has the new digits. */
  lemma CodeRewriteAt(g: string, d: string, p: nat, lo: nat, hi: nat)
    requires p <= lo < hi <= |g| && |d| > 0 && AllDigits(d)
    requires HitAt(CodePattern, g, p, lo, hi)
    requires hi < |g| ==> !IsDigit(g[hi])
    ensures HitAt(CodePattern, g[..lo] + d + g[hi..], p, lo, lo + |d|)
  {
    var g2 := g[..lo] + d + g[hi..];
    var x, y := g[p..], g2[p..];
    var n, end := lo - p, lo - p + |d|;
    SpliceAt(g, d, lo, hi, p);
    AttemptCodeIff(x, n, hi - p);
    assert end < |y| ==> y[end] == g[hi];
    CodeParseMoved(x, y, n, hi - p, end);
    AttemptCodeIff(y, n, end);
  }

  /** The first code match after the rewrite is the rewritten one. */
  lemma CodeRewriteFirst(g: string, d: string, p: nat, lo: nat, hi: nat)
    requires p <= lo && |d| > 0 && AllDigits(d)
    requires Search(CodePattern, g) == Some(p) && HitAt(CodePattern, g, p, lo, hi)
    ensures First(CodePattern, g[..lo] + d + g[hi..]) == Found(p, lo, lo + |d|)
  {
    var g2 := g[..lo] + d + g[hi..];
    CodeDigits(g, p, lo, hi);
    forall k | 0 <= k < p
      ensures Attempt(CodePattern, g2[k..]).Miss?
    {
      SearchMisses(CodePattern, g, k);
      CodeRewriteBefore(g, d, lo, hi, k);
    }
    CodeRewriteAt(g, d, p, lo, hi);
    SearchIs(CodePattern, g2, p);
  }

  /** Step 2 leaves the first `versionCode` reading `code`, when the code is not negative. */
  lemma CodeStepSettles(g: string, code: int)
    requires code >= 0
    ensures CodeSettled(CodeStep(g, code).text, code)
  {
    var f := First(CodePattern, g);
    if f.Found? && CodeValue(g, f) != Some(code) {
      var p, lo, hi := f.start, f.lo, f.hi;
      var d := IntToString(code);
      assert d == NatToString(code);
      var g2 := g[..lo] + d + g[hi..];
      FirstParts(CodePattern, g);
      CodeRewriteFirst(g, d, p, lo, hi);
      assert g2[lo..lo + |d|] == d;
      ParseIntOfString(code);
      assert CodeValue(g2, Found(p, lo, lo + |d|)) == Some(code);
      assert CodeStep(g, code).text == g2;
    }
  }

  // ---- Step 2 keeps what step 1 settled ----

  /** Before the rewritten digits a name attempt succeeds exactly where it did. */
  lemma NameBeforeDigits(g: string, d: string, lo: nat, hi: nat, k: nat)
    requires k <= lo < hi <= |g| && AllDigits(g[lo..hi]) && |d| > 0 && AllDigits(d)
    ensures AttemptName((g[..lo] + d + g[hi..])[k..]).Miss? <==> AttemptName(g[k..]).Miss?
  {
    assert g[k..] == g[k..lo] + g[lo..hi] + g[hi..];
    assert (g[..lo] + d + g[hi..])[k..] == g[k..lo] + d + g[hi..];
    NameSwap(g[k..lo], g[lo..hi], d, g[hi..]);
  }

  /** No name attempt succeeds inside the new digits. */
  lemma NameInsideDigits(g: string, d: string, lo: nat, hi: nat, k: nat)
    requires lo < k < lo + |d| && lo <= hi <= |g| && |d| > 0 && AllDigits(d)
    ensures AttemptName((g[..lo] + d + g[hi..])[k..]).Miss?
  {
    var rest := d[k - lo..];
    assert (g[..lo] + d + g[hi..])[k..] == rest + g[hi..] == [] + rest + g[hi..];
    KeyBeforeDigits([], rest, g[hi..]);
  }

  /** After the new digits the text is the old text after the old digits. */
  lemma AfterDigits(g: string, d: string, lo: nat, hi: nat, k: nat)
    requires lo <= hi <= |g| && lo + |d| <= k <= lo + |d| + (|g| - hi)
    ensures (g[..lo] + d + g[hi..])[k..] == g[k - lo - |d| + hi..]
  {
  }

  /** With no name match before the rewrite, there is none after it. */
  lemma NameNoneAfterRewrite(g: string, d: string, lo: nat, hi: nat)
    requires lo < hi <= |g| && AllDigits(g[lo..hi]) && |d| > 0 && AllDigits(d)
    requires First(NamePattern, g).NotFound?
    ensures First(NamePattern, g[..lo] + d + g[hi..]).NotFound?
  {
    var g2 := g[..lo] + d + g[hi..];
    assert Search(NamePattern, g).None?;
    forall k | 0 <= k <= |g2|
      ensures Attempt(NamePattern, g2[k..]).Miss?
    {
      if k <= lo {
        SearchMisses(NamePattern, g, k);
        NameBeforeDigits(g, d, lo, hi, k);
      } else if k < lo + |d| {
        NameInsideDigits(g, d, lo, hi, k);
      } else {
        AfterDigits(g, d, lo, hi, k);
        SearchMisses(NamePattern, g, k - lo - |d| + hi);
      }
    }
  }

  /** A name match that ends before the digits stays where it is. */
  lemma NameBeforeRewrite(g: string, d: string, lo: nat, hi: nat, q: nat, o: nat, c: nat)
    requires lo < hi <= |g| && AllDigits(g[lo..hi]) && |d| > 0 && AllDigits(d)
    requires Search(NamePattern, g) == Some(q) && HitAt(NamePattern, g, q, o, c) && c < lo
    ensures First(NamePattern, g[..lo] + d + g[hi..]) == Found(q, o, c)
  {
    var g2 := g[..lo] + d + g[hi..];
    forall k | 0 <= k < q
      ensures Attempt(NamePattern, g2[k..]).Miss?
    {
      SearchMisses(NamePattern, g, k);
      NameBeforeDigits(g, d, lo, hi, k);
    }
    var x, y := g[q..], g2[q..];
    assert AgreeBelow(x, y, c - q + 1) by {
      forall i | 0 <= i < c - q + 1 ensures x[i] == y[i] {
        assert x[i] == g[q + i] && y[i] == g2[q + i];
      }
    }
    assert x[c - q] == g[c];
    NameAttemptAgree(x, y, c - q);
    SearchIs(NamePattern, g2, q);
  }

  /** A slice after the old digits reappears, shifted, after the new digits. */
  lemma AfterDigitsSlice(g: string, d: string, lo: nat, hi: nat, i: nat, j: nat, i2: nat, j2: nat)
    requires lo <= hi <= i <= j <= |g|
    requires i2 == i - hi + lo + |d| && j2 == j - hi + lo + |d|
    ensures (g[..lo] + d + g[hi..])[i2..j2] == g[i..j]
  {
    var g2 := g[..lo] + d + g[hi..];
    assert forall k :: i <= k < j ==> g2[k - hi + lo + |d|] == g[k];
  }

  /** No name attempt succeeds in the rewritten text before the shifted position of the first old match. */
  lemma NameMissBeforeShift(g: string, d: string, lo: nat, hi: nat, q: nat)
    requires lo < hi <= q <= |g| && AllDigits(g[lo..hi]) && |d| > 0 && AllDigits(d)
    requires forall k :: 0 <= k < q ==> Attempt(NamePattern, g[k..]).Miss?
    ensures forall k :: 0 <= k < q - hi + lo + |d| ==> Attempt(NamePattern, (g[..lo] + d + g[hi..])[k..]).Miss?
  {
    var g2 := g[..lo] + d + g[hi..];
    var s := lo + |d|;
    forall k | 0 <= k < q - hi + s
      ensures Attempt(NamePattern, g2[k..]).Miss?
    {
      if k <= lo {
        assert Attempt(NamePattern, g[k..]).Miss?;
        NameBeforeDigits(g, d, lo, hi, k);
      } else if k < s {
        NameInsideDigits(g, d, lo, hi, k);
      } else {
        AfterDigits(g, d, lo, hi, k);
        assert Attempt(NamePattern, g[k - s + hi..]).Miss?;
      }
    }
  }

  /** A name match that starts after the digits moves with the text after them. */
  lemma NameAfterRewrite(g: string, d: string, lo: nat, hi: nat, q: nat, o: nat, c: nat)
    requires lo < hi <= q <= |g| && AllDigits(g[lo..hi]) && |d| > 0 && AllDigits(d)
    requires Search(NamePattern, g) == Some(q) && HitAt(NamePattern, g, q, o, c)
    ensures var s := lo + |d|;
      First(NamePattern, g[..lo] + d + g[hi..]) == Found(q - hi + s, o - hi + s, c - hi + s)
  {
    var g2 := g[..lo] + d + g[hi..];
    var q2 := q - hi + lo + |d|;
    SearchMissesBefore(NamePattern, g, q);
    NameMissBeforeShift(g, d, lo, hi, q);
    AfterDigits(g, d, lo, hi, q2);
    assert g2[q2..] == g[q..];
    SearchIs(NamePattern, g2, q2);
  }

  /** The characters of a code match at `pc`, in absolute positions: no quote before its digits. */
  lemma CodeMatchChars(g: string, pc: nat, lo: nat, hi: nat)
    requires HitAt(CodePattern, g, pc, lo, hi)
    ensures pc + KeyLength <= lo < hi <= |g|
    ensures forall k :: pc <= k < lo ==> !IsQuote(g[k])
    ensures forall k :: lo <= k < hi ==> IsDigit(g[k])
  {
    var x := g[pc..];
    KeyLetters(x);
    AttemptCodeIff(x, lo - pc, hi - pc);
    forall k | pc <= k < hi
      ensures k < lo ==> !IsQuote(g[k])
      ensures lo <= k ==> IsDigit(g[k])
    {
      assert g[k] == x[k - pc];
    }
  }

  /** The characters of a name match at `q`, in absolute positions: no digit and no quote before its opening quote. */
  lemma NameMatchChars(g: string, q: nat, o: nat, c: nat)
    requires HitAt(NamePattern, g, q, o, c)
    ensures q + KeyLength <= o < c < |g| && IsQuote(g[o]) && IsQuote(g[c])
    ensures forall k :: q <= k < o ==> !IsDigit(g[k]) && !IsQuote(g[k])
  {
    var y := g[q..];
    KeyLetters(y);
    AttemptNameIff(y, o - q, c - q);
    forall k | q <= k <= c
      ensures k < o ==> !IsDigit(g[k]) && !IsQuote(g[k])
      ensures k == o || k == c ==> IsQuote(g[k])
    {
      assert g[k] == y[k - q];
    }
  }

  /** A name match cannot start inside the digits of a code match. */
  lemma NameNotInDigits(g: string, pc: nat, lo: nat, hi: nat, q: nat, o: nat, c: nat)
    requires HitAt(CodePattern, g, pc, lo, hi) && HitAt(NamePattern, g, q, o, c)
    ensures !(lo <= q < hi)
  {
    CodeMatchChars(g, pc, lo, hi);
    NameMatchChars(g, q, o, c);
  }

  /** The quotes of a name match that starts before the code's digits and reaches them lie on either side of the code's key. */
  lemma NameSpanEnds(g: string, pc: nat, lo: nat, hi: nat, q: nat, o: nat, c: nat)
    requires HitAt(CodePattern, g, pc, lo, hi) && HitAt(NamePattern, g, q, o, c)
    requires q < lo <= c
    ensures o < pc && pc + KeyLength <= lo < hi <= c
  {
    CodeMatchChars(g, pc, lo, hi);
    NameMatchChars(g, q, o, c);
    assert IsDigit(g[lo]);
  }

  /** A name match that starts before the code's digits and reaches them has the code's key inside its quotes. */
  lemma NameSpanningCode(g: string, pc: nat, lo: nat, hi: nat, q: nat, o: nat, c: nat)
    requires HitAt(CodePattern, g, pc, lo, hi) && HitAt(NamePattern, g, q, o, c)
    requires q < lo <= c
    ensures o + 1 <= c && MentionsCodeKey(g[o + 1..c])
  {
    NameSpanEnds(g, pc, lo, hi, q, o, c);
    var x := g[pc..];
    var content := g[o + 1..c];
    var at := pc - o - 1;
    assert forall i :: 0 <= i < KeyLength ==> content[at..][i] == x[i];
    assert CodeKeyAt(content[at..]);
  }

  /** A name match either ends before the code's digits, starts after them, or has the code's key inside its quotes. */
  lemma NameClearOfCode(g: string, pc: nat, lo: nat, hi: nat, q: nat, o: nat, c: nat)
    requires HitAt(CodePattern, g, pc, lo, hi) && HitAt(NamePattern, g, q, o, c)
    ensures o < c && (c < lo || hi <= q || MentionsCodeKey(g[o + 1..c]))
  {
    NameNotInDigits(g, pc, lo, hi, q, o, c);
    NameMatchChars(g, q, o, c);
    if q < lo <= c {
      NameSpanningCode(g, pc, lo, hi, q, o, c);
    }
  }

  /** The first name match reads `v`. */
  lemma NameSettledBy(g: string, v: string, f: Found)
    requires First(NamePattern, g) == f && f.Found? && f.lo < f.hi <= |g| && g[f.lo + 1..f.hi] == v
    ensures NameSettled(g, v)
  {
  }

  /** A name match before the rewritten digits still reads `v`. */
  lemma NameKeptBefore(g: string, d: string, v: string, lo: nat, hi: nat, q: nat, o: nat, c: nat)
    requires lo < hi <= |g| && AllDigits(g[lo..hi]) && |d| > 0 && AllDigits(d)
    requires Search(NamePattern, g) == Some(q) && HitAt(NamePattern, g, q, o, c) && c < lo
    requires o < c && g[o + 1..c] == v
    ensures NameSettled(g[..lo] + d + g[hi..], v)
  {
    var g2 := g[..lo] + d + g[hi..];
    NameBeforeRewrite(g, d, lo, hi, q, o, c);
    assert g2[o + 1..c] == g[o + 1..c];
    NameSettledBy(g2, v, Found(q, o, c));
  }

  /** A name match after the rewritten digits still reads `v`. */
  lemma NameKeptAfter(g: string, d: string, v: string, lo: nat, hi: nat, q: nat, o: nat, c: nat)
    requires lo < hi <= q <= |g| && AllDigits(g[lo..hi]) && |d| > 0 && AllDigits(d)
    requires Search(NamePattern, g) == Some(q) && HitAt(NamePattern, g, q, o, c)
    requires q < o < c <= |g| && g[o + 1..c] == v
    ensures NameSettled(g[..lo] + d + g[hi..], v)
  {
    var g2 := g[..lo] + d + g[hi..];
    var s := lo + |d|;
    var o2, c2 := o - hi + s, c - hi + s;
    NameAfterRewrite(g, d, lo, hi, q, o, c);
    AfterDigitsSlice(g, d, lo, hi, o + 1, c, o2 + 1, c2);
    NameSettledBy(g2, v, Found(q - hi + s, o2, c2));
  }

  /** Rewriting the digits of a code match keeps a name match whose content does not mention `versionCode`, with that content. */
  lemma NameKeptByRewrite(g: string, d: string, v: string, pc: nat, lo: nat, hi: nat, q: nat, o: nat, c: nat)
    requires HitAt(CodePattern, g, pc, lo, hi) && lo < hi <= |g| && AllDigits(g[lo..hi])
    requires |d| > 0 && AllDigits(d) && !MentionsCodeKey(v)
    requires Search(NamePattern, g) == Some(q) && HitAt(NamePattern, g, q, o, c)
    requires o < c && g[o + 1..c] == v
    ensures NameSettled(g[..lo] + d + g[hi..], v)
  {
    NameClearOfCode(g, pc, lo, hi, q, o, c);
    NameMatchChars(g, q, o, c);
    if c < lo {
      NameKeptBefore(g, d, v, lo, hi, q, o, c);
    } else {
      NameKeptAfter(g, d, v, lo, hi, q, o, c);
    }
  }

  /** A settled name match, in absolute positions. */
  lemma NameSettledParts(g: string, v: string)
    requires First(NamePattern, g).Found? && NameSettled(g, v)
    ensures var n := First(NamePattern, g);
      Search(NamePattern, g) == Some(n.start) && HitAt(NamePattern, g, n.start, n.lo, n.hi)
      && n.lo < n.hi <= |g| && g[n.lo + 1..n.hi] == v
  {
    FirstParts(NamePattern, g);
  }

  /** Rewriting the digits of a code match keeps a settled name settled. */
  lemma NameKeptByCodeRewrite(g: string, d: string, v: string, pc: nat, lo: nat, hi: nat)
    requires HitAt(CodePattern, g, pc, lo, hi) && |d| > 0 && AllDigits(d) && !MentionsCodeKey(v)
    requires NameSettled(g, v)
    ensures NameSettled(g[..lo] + d + g[hi..], v)
  {
    CodeDigits(g, pc, lo, hi);
    if First(NamePattern, g).NotFound? {
      NameNoneAfterRewrite(g, d, lo, hi);
    } else {
      var n := First(NamePattern, g);
      NameSettledParts(g, v);
      NameKeptByRewrite(g, d, v, pc, lo, hi, n.start, n.lo, n.hi);
    }
  }

  /** Step 2 keeps a `versionName` that step 1 settled, when the version does not mention `versionCode`. */
  lemma CodeStepKeepsName(g: string, v: string, code: int)
    requires !MentionsCodeKey(v) && code >= 0
    requires NameSettled(g, v)
    ensures NameSettled(CodeStep(g, code).text, v)
  {
    var f := First(CodePattern, g);
    if f.Found? && CodeValue(g, f) != Some(code) {
      var d := IntToString(code);
      assert d == NatToString(code);
      assert AllDigits(d);
      assert CodeStep(g, code).text == g[..f.lo] + d + g[f.hi..];
      FirstParts(CodePattern, g);
      NameKeptByCodeRewrite(g, d, v, f.start, f.lo, f.hi);
    }
  }

  // ---- The whole script ----

  /** Both steps in order, on the text the first one leaves; the file is to be written when either changed it. */
  function Sync(g: string, version: string): (r: Step)
    ensures r.changed <==> !(NameSettled(g, version) && CodeSettled(g, VersionCode(version)))
    ensures !r.changed ==> r.text == g
  {
    var name := NameStep(g, version);
    var code := CodeStep(name.text, VersionCode(version));
    Step(code.text, name.changed || code.changed)
  }

  /** After the script the first `versionName` reads the version and the first `versionCode` its code. */
  lemma SyncSettles(g: string, v: string)
    requires QuoteFree(v) && !MentionsCodeKey(v) && VersionCode(v) >= 0
    ensures NameSettled(Sync(g, v).text, v) && CodeSettled(Sync(g, v).text, VersionCode(v))
  {
    var g1 := NameStep(g, v).text;
    NameStepSettles(g, v);
    CodeStepSettles(g1, VersionCode(v));
    CodeStepKeepsName(g1, v, VersionCode(v));
  }

  /** A second run of the script changes nothing and writes nothing. */
  lemma SyncIdempotent(g: string, v: string)
    requires QuoteFree(v) && !MentionsCodeKey(v) && VersionCode(v) >= 0
    ensures Sync(Sync(g, v).text, v) == Step(Sync(g, v).text, false)
  {
    SyncSettles(g, v);
  }

  /** The Android project as the script sees it: whether the build file exists, its text, and how often the script has written it. */
  class AndroidProject {
    var hasBuildFile: bool
    var buildFile: string
    var writes: nat

    constructor (present: bool, text: string)
      ensures hasBuildFile == present && buildFile == text && writes == 0
    {
      hasBuildFile := present;
      buildFile := text;
      writes := 0;
    }

    /** Run the script: without a build file nothing happens; otherwise both steps run on a local copy, which is written back once, and only when a step changed it. */
    method SyncVersion(version: string) returns (changed: bool)
      modifies this
      ensures hasBuildFile == old(hasBuildFile)
      ensures !old(hasBuildFile) ==> !changed && buildFile == old(buildFile)
      ensures old(hasBuildFile) ==> changed == Sync(old(buildFile), version).changed
      ensures old(hasBuildFile) ==> buildFile == Sync(old(buildFile), version).text
      ensures writes == old(writes) + (if changed then 1 else 0)
    {
      changed := false;
      if hasBuildFile {
        var gradle := buildFile;
        var name := NameStep(gradle, version);
        if name.changed {
          gradle := name.text;
          changed := true;
        }
        var code := CodeStep(gradle, VersionCode(version));
        if code.changed {
          gradle := code.text;
          changed := true;
        }
        if changed {
          buildFile := gradle;
          writes := writes + 1;
        }
      }
    }
  }

  /** Running the script twice writes the build file at most once. */
  method SyncTwice(project: AndroidProject, version: string)
    requires QuoteFree(version) && !MentionsCodeKey(version) && VersionCode(version) >= 0
    modifies project
    ensures project.writes <= old(project.writes) + 1
  {
    var first := project.SyncVersion(version);
    if project.hasBuildFile {
      SyncIdempotent(old(project.buildFile), version);
    }
    var second := project.SyncVersion(version);
  }
}
