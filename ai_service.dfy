/**
 * The recognition pipeline around the two AI providers: cleaning a model's
 * reply down to its JSON object, normalising the OpenAI-compatible base URL,
 * the first-success race between providers, the Gemini primary/fallback
 * policy, the HTTP error classifier of the OpenAI-compatible provider, and the
 * orchestration that picks the eligible providers and composes the final
 * failure message. The SDK, `fetch` and `JSON.parse` are parameters: their
 * outcomes are given, not computed.
 */
module AiService {
  import opened Wrappers
  import opened JsStrings
  import opened JsNumbers
  import opened Seqs
  import opened Types

  // ---------------------------------------------------------------------------
  // Reply cleaning
  // ---------------------------------------------------------------------------

  /** Three backticks start at position `i` of `s`. */
  predicate FenceAt(s: string, i: int) {
    0 <= i && i + 3 <= |s| && s[i] == '`' && s[i + 1] == '`' && s[i + 2] == '`'
  }

  /** No three consecutive backticks anywhere in `s`. */
  predicate FenceFree(s: string) {
    forall i :: 0 <= i < |s| ==> !FenceAt(s, i)
  }

  /** `s` starts with the opening tag "```json". */
  predicate JsonTagAt(s: string) {
    FenceAt(s, 0) && |s| >= 7 && s[3] == 'j' && s[4] == 's' && s[5] == 'o' && s[6] == 'n'
  }

  /**
   * `text.replace(/```json\n?|```/g, "")`: a left-to-right scan that, at each
   * position, removes "```json" together with one following newline if there
   * is one, or else a bare "```", and otherwise keeps the character.
   */
  function StripFences(s: string): string
    decreases |s|
  {
    if JsonTagAt(s) then (if |s| >= 8 && s[7] == '\n' then StripFences(s[8..]) else StripFences(s[7..]))
    else if FenceAt(s, 0) then StripFences(s[3..])
    else if |s| == 0 then ""
    else [s[0]] + StripFences(s[1..])
  }

  /** A text that does not open with a backtick keeps its first character. */
  lemma StripKeepsHead(s: string)
    requires |s| > 0 && s[0] != '`'
    ensures StripFences(s) == [s[0]] + StripFences(s[1..])
  {
  }

  /** Putting one character in front of a fence-free text makes a fence only at the front. */
  lemma ConsFenceFree(c: char, rest: string)
    requires FenceFree(rest)
    requires !(c == '`' && |rest| >= 2 && rest[0] == '`' && rest[1] == '`')
    ensures FenceFree([c] + rest)
  {
    var r := [c] + rest;
    forall i | 1 <= i < |r| ensures !FenceAt(r, i) {
      assert !FenceAt(rest, i - 1);
      if i + 3 <= |r| {
        assert r[i] == rest[i - 1] && r[i + 1] == rest[i] && r[i + 2] == rest[i + 1];
      }
    }
  }

  /** What follows a kept backtick cannot start with two more backticks. */
  lemma StripAfterBacktick(s: string)
    requires |s| >= 2 && s[0] == '`' && !FenceAt(s, 0)
    ensures var rest := StripFences(s[1..]); !(|rest| >= 2 && rest[0] == '`' && rest[1] == '`')
  {
    var t := s[1..];
    if s[1] != '`' {
      StripKeepsHead(t);
    } else if |s| >= 3 {
      assert t[0] == '`' && t[1] == s[2] != '`';
      assert t[1..] == s[2..];
      StripKeepsHead(s[2..]);
      assert StripFences(t) == [t[0]] + ([s[2]] + StripFences(s[3..]));
    } else {
      assert StripFences(t[1..]) == "";
    }
  }

  /** After stripping, no fence is left: the scan never glues two backticks into a new one. */
  lemma {:induction false} StripFencesFenceFree(s: string)
    ensures FenceFree(StripFences(s))
    decreases |s|
  {
    if JsonTagAt(s) {
      if |s| >= 8 && s[7] == '\n' {
        StripFencesFenceFree(s[8..]);
      } else {
        StripFencesFenceFree(s[7..]);
      }
    } else if FenceAt(s, 0) {
      StripFencesFenceFree(s[3..]);
    } else if |s| > 0 {
      StripFencesFenceFree(s[1..]);
      if |s| >= 2 && s[0] == '`' {
        StripAfterBacktick(s);
      }
      ConsFenceFree(s[0], StripFences(s[1..]));
    }
  }

  /** A text without fences passes through unchanged. */
  lemma {:induction false} StripFencesNoFence(s: string)
    requires FenceFree(s)
    ensures StripFences(s) == s
    decreases |s|
  {
    if |s| > 0 {
      assert !FenceAt(s, 0);
      var t := s[1..];
      forall i | 0 <= i < |t| ensures !FenceAt(t, i) {
        assert !FenceAt(s, i + 1);
      }
      StripFencesNoFence(t);
    }
  }

  /** Any piece of a fence-free text is fence-free. */
  lemma FenceFreeSlice(s: string, t: string, k: int)
    requires FenceFree(s) && OccursAt(s, t, k)
    ensures FenceFree(t)
  {
    forall i | 0 <= i < |t| ensures !FenceAt(t, i) {
      assert !FenceAt(s, k + i);
      if i + 3 <= |t| {
        assert t[i] == s[k + i] && t[i + 1] == s[k + i + 1] && t[i + 2] == s[k + i + 2];
      }
    }
  }

  lemma TrimFenceFree(s: string)
    requires FenceFree(s)
    ensures FenceFree(Trim(s))
  {
    var k :| OccursAt(s, Trim(s), k);
    FenceFreeSlice(s, Trim(s), k);
  }

  /** The reply with its fences removed and its white space trimmed. */
  function Unfenced(text: string): (c: string)
    ensures FenceFree(c) && NoWhitespaceEnds(c)
  {
    StripFencesFenceFree(text);
    TrimFenceFree(StripFences(text));
    Trim(StripFences(text))
  }

  /**
   * The cut of `cleanJsonString`: from the first '{' to the last '}' inclusive
   * when both occur, the whole text otherwise. `substring` swaps its bounds, so
   * a last '}' before the first '{' yields the text between them.
   */
  function BraceSpan(c: string): string {
    var first := IndexOf(c, '{');
    var last := LastIndexOf(c, '}');
    if first != -1 && last != -1 then Substring(c, first, last + 1) else c
  }

  /**
   * `cleanJsonString`: the unfenced reply, cut to its brace span. Without both
   * braces nothing is cut; with a '{' before a '}' the cut is brace to brace.
   */
  function CleanJsonString(text: string): (r: string)
    ensures var c := Unfenced(text); ('{' !in c || '}' !in c) ==> r == c
    ensures var c := Unfenced(text); var f, l := IndexOf(c, '{'), LastIndexOf(c, '}');
      f != -1 && l != -1 && f <= l ==> |r| >= 2 && r[0] == '{' && r[|r| - 1] == '}' && OccursAt(c, r, f)
  {
    BraceSpanShape(Unfenced(text));
    BraceSpan(Unfenced(text))
  }

  /** The two outcomes of the cut that `CleanJsonString` promises, for any text. */
  lemma BraceSpanShape(c: string)
    ensures ('{' !in c || '}' !in c) ==> BraceSpan(c) == c
    ensures var f, l, r := IndexOf(c, '{'), LastIndexOf(c, '}'), BraceSpan(c);
      f != -1 && l != -1 && f <= l ==> |r| >= 2 && r[0] == '{' && r[|r| - 1] == '}' && OccursAt(c, r, f)
  {
    if '{' !in c || '}' !in c {
      BraceSpanNoBraces(c);
    } else if IndexOf(c, '{') != -1 && LastIndexOf(c, '}') != -1 && IndexOf(c, '{') <= LastIndexOf(c, '}') {
      BraceSpanEnds(c);
    }
  }

  /** How the cut comes out: the three outcomes of the two searches. */
  lemma BraceSpanCases(c: string)
    ensures var f, l := IndexOf(c, '{'), LastIndexOf(c, '}');
      BraceSpan(c) == if f == -1 || l == -1 then c else if f <= l then c[f..l + 1] else c[l + 1..f]
  {
  }

  /** With a '{' before a '}', the cut runs from the first '{' to the last '}' inclusive. */
  lemma BraceSpanEnds(c: string)
    requires var f, l := IndexOf(c, '{'), LastIndexOf(c, '}'); f != -1 && l != -1 && f <= l
    ensures var f, l, r := IndexOf(c, '{'), LastIndexOf(c, '}'), BraceSpan(c);
      |r| == l + 1 - f && |r| >= 2 && r[0] == '{' && r[|r| - 1] == '}' && OccursAt(c, r, f)
  {
    BraceSpanCases(c);
  }

  /** The cut is a piece of the text, so a fence-free text gives a fence-free cut. */
  lemma BraceSpanFenceFree(c: string)
    requires FenceFree(c)
    ensures FenceFree(BraceSpan(c))
  {
    var f, l := IndexOf(c, '{'), LastIndexOf(c, '}');
    BraceSpanCases(c);
    if f != -1 && l != -1 {
      if f <= l {
        FenceFreeSlice(c, c[f..l + 1], f);
      } else {
        FenceFreeSlice(c, c[l + 1..f], l + 1);
      }
    }
  }

  /**
   * With some '{' before some '}', the cut is the object span: it starts at a
   * '{' with no '{' before it and ends at a '}' with no '}' after it.
   */
  lemma BraceSpanObject(c: string, i: int, j: int) returns (k: nat)
    requires 0 <= i < j < |c| && c[i] == '{' && c[j] == '}'
    ensures var r := BraceSpan(c);
      OccursAt(c, r, k) && |r| >= 2 && r[0] == '{' && r[|r| - 1] == '}'
      && (forall m :: 0 <= m < k ==> c[m] != '{')
      && (forall m :: k + |r| <= m < |c| ==> c[m] != '}')
  {
    k := IndexOf(c, '{');
    BraceSpanEnds(c);
  }

  /** With no '{' or no '}', nothing is cut. */
  lemma BraceSpanNoBraces(c: string)
    requires '{' !in c || '}' !in c
    ensures BraceSpan(c) == c
  {
    if '{' !in c {
      assert IndexOf(c, '{') == -1;
    } else {
      assert LastIndexOf(c, '}') == -1;
    }
  }

  /** The characters strictly between a last '}' and a later first '{' are no braces. */
  lemma NoBracesBetween(c: string, l: int, f: int)
    requires 0 <= l < f <= |c|
    requires forall m :: 0 <= m < f ==> c[m] != '{'
    requires forall m :: l < m < |c| ==> c[m] != '}'
    ensures '{' !in c[l + 1..f] && '}' !in c[l + 1..f]
  {
    var r := c[l + 1..f];
    forall k | 0 <= k < |r| ensures r[k] != '{' && r[k] != '}' {
      assert r[k] == c[l + 1 + k];
    }
  }

  /** When every '}' comes before every '{', the swapped bounds leave a piece with no braces at all. */
  lemma BraceSpanReversed(c: string)
    requires IndexOf(c, '{') != -1 && LastIndexOf(c, '}') != -1 && LastIndexOf(c, '}') < IndexOf(c, '{')
    ensures var r := BraceSpan(c); '{' !in r && '}' !in r
  {
    var f, l := IndexOf(c, '{'), LastIndexOf(c, '}');
    BraceSpanCases(c);
    NoBracesBetween(c, l, f);
  }

  /** An object span is its own cut. */
  lemma BraceSpanOfSpan(r: string)
    requires |r| >= 2 && r[0] == '{' && r[|r| - 1] == '}'
    ensures BraceSpan(r) == r
  {
    BraceSpanCases(r);
    assert IndexOf(r, '{') == 0;
    assert LastIndexOf(r, '}') == |r| - 1;
  }

  /** Cutting twice is cutting once, unless the braces were reversed. */
  lemma BraceSpanIdempotent(c: string)
    requires !(IndexOf(c, '{') != -1 && LastIndexOf(c, '}') != -1 && LastIndexOf(c, '}') < IndexOf(c, '{'))
    ensures BraceSpan(BraceSpan(c)) == BraceSpan(c)
  {
    if IndexOf(c, '{') != -1 && LastIndexOf(c, '}') != -1 {
      BraceSpanEnds(c);
      BraceSpanOfSpan(BraceSpan(c));
    } else {
      BraceSpanCases(c);
    }
  }

  /** Unless the braces were reversed, the cut of a fence-free, trimmed text is again fence-free and trimmed. */
  lemma BraceSpanPlain(c: string)
    requires FenceFree(c) && NoWhitespaceEnds(c)
    requires !(IndexOf(c, '{') != -1 && LastIndexOf(c, '}') != -1 && LastIndexOf(c, '}') < IndexOf(c, '{'))
    ensures FenceFree(BraceSpan(c)) && NoWhitespaceEnds(BraceSpan(c))
  {
    BraceSpanFenceFree(c);
    if IndexOf(c, '{') != -1 && LastIndexOf(c, '}') != -1 {
      BraceSpanEnds(c);
    } else {
      BraceSpanCases(c);
    }
  }

  /** A fence-free text without white space at its ends is its own unfenced form. */
  lemma UnfencedOfPlain(c: string)
    requires FenceFree(c) && NoWhitespaceEnds(c)
    ensures Unfenced(c) == c
  {
    StripFencesNoFence(c);
    TrimOfTrimmed(c);
  }

  /** Whatever the reply, the result holds no code fence. */
  lemma CleanJsonFenceFree(text: string)
    ensures FenceFree(CleanJsonString(text))
  {
    BraceSpanFenceFree(Unfenced(text));
  }

  /** A text that already is a fence-free object span cleans to itself. */
  lemma CleanJsonOfSpan(r: string)
    requires FenceFree(r) && |r| >= 2 && r[0] == '{' && r[|r| - 1] == '}'
    ensures CleanJsonString(r) == r
  {
    UnfencedOfPlain(r);
    BraceSpanOfSpan(r);
  }

  /** Cleaning a cleaned reply changes nothing, unless the braces were reversed. */
  lemma CleanJsonIdempotent(text: string)
    requires var c := Unfenced(text);
      !(IndexOf(c, '{') != -1 && LastIndexOf(c, '}') != -1 && LastIndexOf(c, '}') < IndexOf(c, '{'))
    ensures CleanJsonString(CleanJsonString(text)) == CleanJsonString(text)
  {
    var c := Unfenced(text);
    BraceSpanPlain(c);
    UnfencedOfPlain(BraceSpan(c));
    BraceSpanIdempotent(c);
  }

  /** Text without backticks passes through the scan unchanged and does not affect what follows. */
  lemma {:induction false} StripFencesPlainPrefix(a: string, b: string)
    requires '`' !in a
    ensures StripFences(a + b) == a + StripFences(b)
    decreases |a|
  {
    if |a| == 0 {
      assert a + b == b;
    } else {
      assert a[0] in a;
      assert '`' !in a[1..];
      StripFencesPlainPrefix(a[1..], b);
      StripPlainStep(a, b);
    }
  }

  /** One plain character in front extends the pass-through by one. */
  lemma StripPlainStep(a: string, b: string)
    requires |a| > 0 && a[0] != '`'
    requires StripFences(a[1..] + b) == a[1..] + StripFences(b)
    ensures StripFences(a + b) == a + StripFences(b)
  {
    StripKeepsHeadOf(a, b);
    assert a == [a[0]] + a[1..];
  }

  /** The first character of `a + b` is kept when it is not a backtick. */
  lemma StripKeepsHeadOf(a: string, b: string)
    requires |a| > 0 && a[0] != '`'
    ensures StripFences(a + b) == [a[0]] + StripFences(a[1..] + b)
  {
    StripKeepsHead(a + b);
    assert (a + b)[1..] == a[1..] + b;
  }

  lemma StripFencedObject(obj: string)
    requires '`' !in obj
    ensures StripFences("```json\n" + obj + "\n```") == obj + "\n"
  {
    var text := "```json\n" + obj + "\n```";
    assert JsonTagAt(text) && text[7] == '\n';
    assert text[8..] == (obj + "\n") + "```";
    assert '`' !in obj + "\n";
    StripFencesPlainPrefix(obj + "\n", "```");
    assert FenceAt("```", 0) && "```"[3..] == "";
  }

  lemma NoBacktickFenceFree(s: string)
    requires '`' !in s
    ensures FenceFree(s)
  {
    forall i | 0 <= i < |s| ensures !FenceAt(s, i) {
      assert s[i] in s;
    }
  }

  /** A trailing newline is trimmed away from a text with no white space at its ends. */
  lemma TrimTrailingNewline(obj: string)
    requires NoWhitespaceEnds(obj)
    ensures Trim(obj + "\n") == obj
  {
    var u := obj + "\n";
    if |obj| == 0 {
      assert SkipWs(u, 0) == 1;
    } else {
      TrimStartPlain(u);
      assert u[|u| - 1] == '\n' && u[|u| - 2] == obj[|obj| - 1];
      assert SkipWsBack(u, |u|) == |obj|;
      assert u[..|obj|] == obj;
    }
  }

  /** The fence and tag around an object reply are removed, and the newline before the closing fence trimmed. */
  lemma UnfencedFencedObject(obj: string)
    requires '`' !in obj && |obj| >= 2 && obj[0] == '{' && obj[|obj| - 1] == '}'
    ensures Unfenced("```json\n" + obj + "\n```") == obj
  {
    StripFencedObject(obj);
    TrimTrailingNewline(obj);
  }

  /** A reply that is one JSON object in a ```json fence cleans to that object. */
  lemma CleanJsonOfFencedObject(obj: string)
    requires '`' !in obj && |obj| >= 2 && obj[0] == '{' && obj[|obj| - 1] == '}'
    ensures CleanJsonString("```json\n" + obj + "\n```") == obj
  {
    UnfencedFencedObject(obj);
    BraceSpanOfSpan(obj);
  }

  /** `parseResponse`: the parser applied to the cleaned reply; a failed parse is `None`, never an exception. */
  function ParseResponse(text: string, parse: string -> Option<ScannedFood>): (r: Option<ScannedFood>)
    ensures r == parse(CleanJsonString(text)) && FenceFree(CleanJsonString(text))
  {
    CleanJsonFenceFree(text);
    parse(CleanJsonString(text))
  }

  /** The fence around an object reply is invisible to the parser. */
  lemma ParseResponseOfFencedObject(obj: string, parse: string -> Option<ScannedFood>)
    requires '`' !in obj && |obj| >= 2 && obj[0] == '{' && obj[|obj| - 1] == '}'
    ensures ParseResponse("```json\n" + obj + "\n```", parse) == parse(obj)
  {
    CleanJsonOfFencedObject(obj);
  }

  // ---------------------------------------------------------------------------
  // Base URL of the OpenAI-compatible provider
  // ---------------------------------------------------------------------------

  const DefaultBaseUrl: string := "https://api.deepseek.com"
  const CompletionsPath: string := "/chat/completions"

  /** `s.replace(/\/+$/, '')`: the text without its trailing run of slashes. */
  function DropTrailingSlashes(s: string): (r: string)
    ensures |r| <= |s| && r == s[..|r|]
    ensures forall k :: |r| <= k < |s| ==> s[k] == '/'
    ensures |r| > 0 ==> r[|r| - 1] != '/'
  {
    if |s| > 0 && s[|s| - 1] == '/' then DropTrailingSlashes(s[..|s| - 1]) else s
  }

  /**
   * `normalizeBaseUrl`: the default for an empty URL; otherwise the trimmed URL
   * without trailing slashes and, when it ends with the completions path, with the
   * first occurrence of that path removed.
   */
  function NormalizeBaseUrl(url: string): (r: string)
    ensures url == "" ==> r == DefaultBaseUrl
    ensures url != "" ==> |r| <= |url|
  {
    if url == "" then DefaultBaseUrl
    else
      var clean := DropTrailingSlashes(Trim(url));
      if EndsWith(clean, CompletionsPath) then RemoveFirst(clean, CompletionsPath) else clean
  }

  /** The URL the request is posted to: the normalised base URL followed by the completions path. */
  function Endpoint(baseUrl: string): (e: string)
    ensures EndsWith(e, CompletionsPath)
    ensures e == NormalizeBaseUrl(baseUrl) + CompletionsPath
    ensures baseUrl == "" ==> e == DefaultBaseUrl + CompletionsPath
  {
    NormalizeBaseUrl(baseUrl) + CompletionsPath
  }

  /** A URL of only white space is not empty, so it escapes the default and normalises to "". */
  lemma NormalizeBlankUrl(url: string)
    requires |url| > 0 && forall k :: 0 <= k < |url| ==> IsWhitespace(url[k])
    ensures NormalizeBaseUrl(url) == ""
  {
    SkipWsIs(url, 0, |url|);
  }

  /** The completions path overlaps itself only trivially: no proper prefix of it is also a suffix. */
  lemma CompletionsPathBorderless(j: int)
    requires 0 < j < |CompletionsPath|
    ensures CompletionsPath[j..] != CompletionsPath[..|CompletionsPath| - j]
  {
    var p := CompletionsPath;
    if j == 5 {
      assert p[j..][2] != p[..|p| - j][2];
    } else {
      assert p[j..][0] != p[..|p| - j][0];
    }
  }

  /** An occurrence inside `b` would be an occurrence in `b`. */
  lemma OccurrenceWithin(b: string, t: string, r: int)
    requires 0 <= r && r + |t| <= |b| && OccursAt(b + t, t, r)
    ensures Contains(b, t)
  {
    assert b[r..r + |t|] == (b + t)[r..r + |t|];
    ContainsAt(b, t, r);
  }

  /** An occurrence straddling `b` and the path would make the path overlap itself. */
  lemma NoStraddlingPath(b: string, r: int)
    requires 0 <= r < |b| < r + |CompletionsPath|
    ensures !OccursAt(b + CompletionsPath, CompletionsPath, r)
  {
    var p := CompletionsPath;
    var s := b + p;
    var j := |b| - r;
    if OccursAt(s, p, r) {
      assert s[r..r + |p|][j..] == s[|b|..r + |p|] == p[..|p| - j];
      CompletionsPathBorderless(j);
    }
  }

  /** No occurrence of the path in `b + path` starts inside `b`, when `b` does not hold it. */
  lemma NoEarlierPath(b: string, r: int)
    requires !Contains(b, CompletionsPath) && 0 <= r < |b|
    ensures !OccursAt(b + CompletionsPath, CompletionsPath, r)
  {
    if r + |CompletionsPath| <= |b| {
      if OccursAt(b + CompletionsPath, CompletionsPath, r) {
        OccurrenceWithin(b, CompletionsPath, r);
      }
    } else {
      NoStraddlingPath(b, r);
    }
  }

  /** In `b + path`, the path is found at its own place when `b` does not hold it. */
  lemma PathFoundAtEnd(b: string)
    requires !Contains(b, CompletionsPath)
    ensures IndexOfString(b + CompletionsPath, CompletionsPath) == |b|
  {
    forall k | 0 <= k < |b|
      ensures !OccursAt(b + CompletionsPath, CompletionsPath, k)
    {
      NoEarlierPath(b, k);
    }
    OccursAtEnd(b, CompletionsPath);
    IndexOfStringIs(b + CompletionsPath, CompletionsPath, |b|);
  }

  /** Slashes after a text with no white space at its ends leave nothing to trim. */
  lemma TrimSlashed(b: string, slashes: string)
    requires |b| > 0 && NoWhitespaceEnds(b)
    requires forall k :: 0 <= k < |slashes| ==> slashes[k] == '/'
    ensures Trim(b + slashes) == b + slashes
  {
    var v := b + slashes;
    assert v[0] == b[0];
    assert v[|v| - 1] == if |slashes| > 0 then '/' else b[|b| - 1];
    TrimOfTrimmed(v);
  }

  lemma EndsWithContains(b: string, t: string)
    requires EndsWith(b, t)
    ensures Contains(b, t)
  {
    ContainsAt(b, t, |b| - |t|);
  }

  /** A clean base URL followed by slashes normalises to itself. */
  lemma NormalizeSlashedBase(b: string, slashes: string)
    requires |b| > 0 && NoWhitespaceEnds(b) && b[|b| - 1] != '/' && !Contains(b, CompletionsPath)
    requires forall k :: 0 <= k < |slashes| ==> slashes[k] == '/'
    ensures NormalizeBaseUrl(b + slashes) == b
  {
    TrimSlashed(b, slashes);
    DropSlashRun(b, slashes);
    if EndsWith(b, CompletionsPath) {
      EndsWithContains(b, CompletionsPath);
    }
  }

  /** A clean base URL followed by the completions path and slashes normalises to the base. */
  lemma NormalizeSlashedEndpoint(b: string, slashes: string)
    requires |b| > 0 && NoWhitespaceEnds(b) && b[|b| - 1] != '/' && !Contains(b, CompletionsPath)
    requires forall k :: 0 <= k < |slashes| ==> slashes[k] == '/'
    ensures NormalizeBaseUrl(b + CompletionsPath + slashes) == b
  {
    var c := b + CompletionsPath;
    PathAppended(b);
    CleanOfSlashed(c, slashes);
    RemovePathAtEnd(b);
    NormalizeOfClean(c + slashes, c);
  }

  /** A clean base with the completions path appended is clean, ends in the path and not in a slash. */
  lemma PathAppended(b: string)
    requires |b| > 0 && NoWhitespaceEnds(b)
    ensures var c := b + CompletionsPath;
      NoWhitespaceEnds(c) && c[|c| - 1] != '/' && EndsWith(c, CompletionsPath)
  {
    var p := CompletionsPath;
    var c := b + p;
    assert c[0] == b[0] && c[|c| - 1] == 's';
    assert c[|c| - |p|..] == p;
  }

  /** Trimming and dropping the slashes of a clean text followed by slashes gives the text back. */
  lemma CleanOfSlashed(c: string, slashes: string)
    requires |c| > 0 && NoWhitespaceEnds(c) && c[|c| - 1] != '/'
    requires forall k :: 0 <= k < |slashes| ==> slashes[k] == '/'
    ensures DropTrailingSlashes(Trim(c + slashes)) == c
  {
    TrimSlashed(c, slashes);
    DropSlashRun(c, slashes);
  }

  /** A non-empty URL normalises through its cleaned form. */
  lemma NormalizeOfClean(u: string, c: string)
    requires u != "" && DropTrailingSlashes(Trim(u)) == c
    ensures NormalizeBaseUrl(u) == if EndsWith(c, CompletionsPath) then RemoveFirst(c, CompletionsPath) else c
  {
  }

  lemma RemovePathAtEnd(b: string)
    requires !Contains(b, CompletionsPath)
    ensures RemoveFirst(b + CompletionsPath, CompletionsPath) == b
  {
    var c := b + CompletionsPath;
    PathFoundAtEnd(b);
    assert c[..|b|] == b && c[|b| + |CompletionsPath|..] == "";
  }

  /**
   * Pasting the full endpoint, with or without trailing slashes, in place of the base
   * URL is harmless: both normalise to the base, so the request goes to the same endpoint.
   */
  lemma NormalizePastedEndpoint(b: string, slashes: string)
    requires |b| > 0 && NoWhitespaceEnds(b) && b[|b| - 1] != '/' && !Contains(b, CompletionsPath)
    requires forall k :: 0 <= k < |slashes| ==> slashes[k] == '/'
    ensures NormalizeBaseUrl(b + CompletionsPath + slashes) == NormalizeBaseUrl(b + slashes) == b
    ensures Endpoint(b + CompletionsPath + slashes) == Endpoint(b)
  {
    NormalizeSlashedBase(b, slashes);
    NormalizeSlashedBase(b, "");
    assert b + "" == b;
    NormalizeSlashedEndpoint(b, slashes);
  }

  /** Trailing slashes after a text not ending in a slash are exactly what is dropped. */
  lemma {:induction false} DropSlashRun(s: string, slashes: string)
    requires |s| > 0 && s[|s| - 1] != '/'
    requires forall k :: 0 <= k < |slashes| ==> slashes[k] == '/'
    ensures DropTrailingSlashes(s + slashes) == s
    decreases |slashes|
  {
    if |slashes| == 0 {
      assert s + slashes == s;
    } else {
      var t := s + slashes;
      assert t[..|t| - 1] == s + slashes[..|slashes| - 1];
      DropSlashRun(s, slashes[..|slashes| - 1]);
    }
  }

  // ---------------------------------------------------------------------------
  // First-success race between providers
  // ---------------------------------------------------------------------------

  /** How one provider task settled. */
  datatype Settlement<T> = Fulfilled(value: T) | Rejected(message: string)

  const NoTaskMessage: string := "没有配置任何有效的 API Key"

  /** The messages of the rejections among `s`, in settlement order. */
  function RejectionMessages<T>(s: seq<Settlement<T>>): (ms: seq<string>)
    ensures |ms| <= |s|
  {
    if |s| == 0 then []
    else RejectionMessages(s[..|s| - 1]) + (if s[|s| - 1].Rejected? then [s[|s| - 1].message] else [])
  }

  /** The value of the first fulfilment among `s`, in settlement order. */
  function FirstFulfilled<T>(s: seq<Settlement<T>>): Option<T> {
    if |s| == 0 then None
    else if FirstFulfilled(s[..|s| - 1]).Some? then FirstFulfilled(s[..|s| - 1])
    else if s[|s| - 1].Fulfilled? then Some(s[|s| - 1].value)
    else None
  }

  /** What `promiseAny` settles with, for the provider promises listed in the order they settle. */
  function RaceResult<T>(s: seq<Settlement<T>>): Result<T> {
    if |s| == 0 then Err(NoTaskMessage)
    else match FirstFulfilled(s)
      case Some(v) => Ok(v)
      case None => Err(Join(RejectionMessages(s), "\n"))
  }

  /** Without a fulfilment, every settlement is a rejection, listed in order. */
  lemma {:induction false} NoFulfilmentAllRejected<T>(s: seq<Settlement<T>>)
    requires FirstFulfilled(s).None?
    ensures |RejectionMessages(s)| == |s|
    ensures forall k :: 0 <= k < |s| ==> s[k].Rejected? && RejectionMessages(s)[k] == s[k].message
  {
    if |s| > 0 {
      var init := s[..|s| - 1];
      NoFulfilmentAllRejected(init);
      forall k | 0 <= k < |s| - 1 ensures s[k] == init[k] {}
    }
  }

  /** A fulfilment means fewer rejections than settlements. */
  lemma {:induction false} FulfilmentCount<T>(s: seq<Settlement<T>>)
    requires FirstFulfilled(s).Some?
    ensures |RejectionMessages(s)| < |s|
  {
    if FirstFulfilled(s[..|s| - 1]).Some? {
      FulfilmentCount(s[..|s| - 1]);
    }
  }

  /** The first fulfilment is the earliest fulfilled settlement. */
  lemma {:induction false} FirstFulfilledIsEarliest<T>(s: seq<Settlement<T>>, i: int)
    requires 0 <= i < |s| && s[i].Fulfilled?
    requires forall k :: 0 <= k < i ==> s[k].Rejected?
    ensures FirstFulfilled(s) == Some(s[i].value)
  {
    var init := s[..|s| - 1];
    if i < |s| - 1 {
      FirstFulfilledIsEarliest(init, i);
    } else {
      assert forall k :: 0 <= k < |init| ==> init[k].Rejected?;
      NoRejectionFulfilled(init);
    }
  }

  lemma {:induction false} NoRejectionFulfilled<T>(s: seq<Settlement<T>>)
    requires forall k :: 0 <= k < |s| ==> s[k].Rejected?
    ensures FirstFulfilled(s).None?
  {
    if |s| > 0 {
      NoRejectionFulfilled(s[..|s| - 1]);
    }
  }

  /**
   * `promiseAny`: every task settles once, in the order given. The first fulfilment
   * resolves the race and later settlements are ignored; each rejection is recorded
   * and, when the last pending task rejects, the race rejects with all the recorded
   * messages joined by newlines. With no task at all it rejects at once.
   */
  method PromiseAny<T>(settlements: seq<Settlement<T>>) returns (r: Result<T>)
    ensures r == RaceResult(settlements)
  {
    var errors: seq<string> := [];
    var pending := |settlements|;
    if pending == 0 {
      return Err(NoTaskMessage);
    }
    var outcome: Option<Result<T>> := None;
    var i := 0;
    while i < |settlements|
      invariant 0 <= i <= |settlements|
      invariant errors == RejectionMessages(settlements[..i])
      invariant pending == |settlements| - |errors|
      invariant FirstFulfilled(settlements[..i]).None? ==> |errors| == i
      invariant outcome.None? <==> FirstFulfilled(settlements[..i]).None? && pending > 0
      invariant FirstFulfilled(settlements[..i]).Some? ==> outcome == Some(Ok(FirstFulfilled(settlements[..i]).value))
      invariant FirstFulfilled(settlements[..i]).None? && pending == 0 ==> outcome == Some(Err(Join(errors, "\n")))
    {
      var prefix := settlements[..i + 1];
      assert prefix[..i] == settlements[..i];
      match settlements[i] {
        case Fulfilled(v) =>
          if outcome.None? {
            outcome := Some(Ok(v));
          }
        case Rejected(m) =>
          errors := errors + [m];
          pending := pending - 1;
          if pending == 0 && outcome.None? {
            outcome := Some(Err(Join(errors, "\n")));
          }
      }
      i := i + 1;
      if FirstFulfilled(settlements[..i]).None? {
        NoFulfilmentAllRejected(settlements[..i]);
      } else {
        FulfilmentCount(settlements[..i]);
      }
    }
    assert settlements[..i] == settlements;
    r := outcome.value;
  }

  /** The race succeeds exactly when some task succeeds. */
  lemma RaceOkIff<T>(s: seq<Settlement<T>>)
    ensures RaceResult(s).Ok? <==> exists i :: 0 <= i < |s| && s[i].Fulfilled?
  {
    if FirstFulfilled(s).None? {
      NoFulfilmentAllRejected(s);
    } else if forall k :: 0 <= k < |s| ==> s[k].Rejected? {
      NoRejectionFulfilled(s);
    }
  }

  /**
   * The first promise to succeed wins, whatever settles after it: only the promises that
   * settled before it, all rejected, could have changed the outcome.
   */
  lemma RaceFirstSuccessWins<T>(s: seq<Settlement<T>>, i: int)
    requires 0 <= i < |s| && s[i].Fulfilled?
    requires forall k :: 0 <= k < i ==> s[k].Rejected?
    ensures RaceResult(s) == Ok(s[i].value)
  {
    FirstFulfilledIsEarliest(s, i);
  }

  /** When every task fails, the race fails with all their messages, in settlement order. */
  lemma RaceAllRejected<T>(s: seq<Settlement<T>>)
    requires |s| > 0 && forall k :: 0 <= k < |s| ==> s[k].Rejected?
    ensures RaceResult(s).Err?
    ensures var ms := RejectionMessages(s);
      RaceResult(s).message == Join(ms, "\n") && |ms| == |s|
      && forall k :: 0 <= k < |s| ==> ms[k] == s[k].message
  {
    NoRejectionFulfilled(s);
    NoFulfilmentAllRejected(s);
  }

  // ---------------------------------------------------------------------------
  // Gemini: primary model with one fallback
  // ---------------------------------------------------------------------------

  /** A thrown JavaScript value: its `message` ("" when absent) and its `JSON.stringify` text. */
  datatype JsError = JsError(message: string, json: string)

  /** `error.message || JSON.stringify(error)`. */
  function ErrorText(e: JsError): (t: string)
    ensures e.message != "" ==> t == e.message
  {
    if e.message != "" then e.message else e.json
  }

  /** What one `generateContent` call gives: a thrown error, or a reply text ("" when absent) and finish reason. */
  datatype GeminiReply = SdkThrew(error: JsError) | Generated(text: string, finishReason: string)

  const GeminiPrimary: string := "gemini-3-flash-preview"
  const GeminiFallback: string := "gemini-flash-latest"
  const ParseFailedMessage: string := "JSON parse failed"

  function ImageDataUrl(base64Image: string): string {
    "data:image/jpeg;base64," + base64Image
  }

  /** The parsed object with `image` replaced by the captured picture and `sourceModel` set. */
  function Stamped(food: ScannedFood, base64Image: string, model: string): (r: ScannedFood)
    ensures r.image == ImageDataUrl(base64Image) && r.sourceModel == Some(model)
    ensures r.name == food.name && r.calories == food.calories
    ensures r.confidence == food.confidence && r.macros == food.macros
  {
    food.(image := ImageDataUrl(base64Image), sourceModel := Some(model))
  }

  function EmptyResponseMessage(finishReason: string): string {
    "Empty response (FinishReason: " + (if finishReason == "" then "Unknown" else finishReason) + ")"
  }

  /**
   * `callGeminiModel`: an empty reply and an unparsable reply are errors of their own;
   * an SDK error is reported by its text. The error carries the text `callGemini` reads.
   */
  function CallGeminiModel(model: string, base64Image: string, reply: GeminiReply,
                           parse: string -> Option<ScannedFood>): (r: Result<ScannedFood>)
    ensures r.Ok? <==> reply.Generated? && reply.text != "" && ParseResponse(reply.text, parse).Some?
    ensures r.Ok? ==> r.value == Stamped(ParseResponse(reply.text, parse).value, base64Image, model)
  {
    match reply
    case SdkThrew(e) => Err(ErrorText(e))
    case Generated(text, finishReason) =>
      if text == "" then Err(EmptyResponseMessage(finishReason))
      else match ParseResponse(text, parse)
        case None => Err(ParseFailedMessage)
        case Some(food) => Ok(Stamped(food, base64Image, model))
  }

  /** The errors after which the fallback model is tried: rate limits, quota and empty replies. */
  predicate ShouldFallback(errMsg: string) {
    Contains(errMsg, "429") || Contains(errMsg, "RESOURCE_EXHAUSTED") || Contains(errMsg, "quota")
    || Contains(errMsg, "Empty response")
  }

  /** The outcome of `callGemini` and the models it called, in order. */
  datatype GeminiRun = GeminiRun(result: Result<ScannedFood>, modelsCalled: seq<string>)

  /**
   * `callGemini`: the primary model; on a fallback-worthy error the fallback model,
   * whose own error is discarded in favour of the primary's, cut to 50 characters;
   * any other primary error is reported cut to 100 characters.
   */
  function CallGemini(base64Image: string, generate: string -> GeminiReply,
                      parse: string -> Option<ScannedFood>): (run: GeminiRun)
    ensures 1 <= |run.modelsCalled| <= 2 && run.modelsCalled[0] == GeminiPrimary
    ensures |run.modelsCalled| == 2 ==> run.modelsCalled[1] == GeminiFallback
    ensures run.result.Ok? ==> run.result.value.image == ImageDataUrl(base64Image)
    ensures var first := CallGeminiModel(GeminiPrimary, base64Image, generate(GeminiPrimary), parse);
      first.Ok? ==> run == GeminiRun(first, [GeminiPrimary])
    ensures var first := CallGeminiModel(GeminiPrimary, base64Image, generate(GeminiPrimary), parse);
      first.Err? && !ShouldFallback(first.message)
      ==> run == GeminiRun(Err(GeminiErrorPrefix + Take(first.message, 100) + "..."), [GeminiPrimary])
    ensures var first := CallGeminiModel(GeminiPrimary, base64Image, generate(GeminiPrimary), parse);
      var second := CallGeminiModel(GeminiFallback, base64Image, generate(GeminiFallback), parse);
      first.Err? && ShouldFallback(first.message)
      ==> run.modelsCalled == [GeminiPrimary, GeminiFallback]
          && run.result == if second.Ok? then second else Err(GeminiFailedPrefix + Take(first.message, 50) + "...")
  {
    var first := CallGeminiModel(GeminiPrimary, base64Image, generate(GeminiPrimary), parse);
    if first.Ok? then GeminiRun(first, [GeminiPrimary])
    else if ShouldFallback(first.message) then
      var second := CallGeminiModel(GeminiFallback, base64Image, generate(GeminiFallback), parse);
      if second.Ok? then GeminiRun(second, [GeminiPrimary, GeminiFallback])
      else GeminiRun(Err(GeminiFailedPrefix + Take(first.message, 50) + "..."), [GeminiPrimary, GeminiFallback])
    else GeminiRun(Err(GeminiErrorPrefix + Take(first.message, 100) + "..."), [GeminiPrimary])
  }

  const GeminiErrorPrefix: string := "Gemini Error: "
  const GeminiFailedPrefix: string := "Gemini 识别失败: "

  /** A text begins with whatever is put in front of it. */
  lemma PrefixedStartsWith(p: string, rest: string)
    ensures StartsWith(p + rest, p)
  {
    assert (p + rest)[..|p|] == p;
  }

  /**
   * A Gemini answer names the model that gave it (the last one called), and a Gemini
   * failure is reported under one of the two Gemini prefixes.
   */
  lemma CallGeminiReport(base64Image: string, generate: string -> GeminiReply,
                         parse: string -> Option<ScannedFood>)
    ensures var run := CallGemini(base64Image, generate, parse);
      run.result.Ok? ==> run.result.value.sourceModel == Some(run.modelsCalled[|run.modelsCalled| - 1])
    ensures var run := CallGemini(base64Image, generate, parse);
      run.result.Err? ==> StartsWith(run.result.message, GeminiErrorPrefix) || StartsWith(run.result.message, GeminiFailedPrefix)
  {
    var run := CallGemini(base64Image, generate, parse);
    if run.result.Err? {
      var first := CallGeminiModel(GeminiPrimary, base64Image, generate(GeminiPrimary), parse);
      GeminiErrorPrefixed(first.message, run.result.message);
    }
  }

  /** Both Gemini failure texts begin with their prefix. */
  lemma GeminiErrorPrefixed(errMsg: string, report: string)
    requires report == GeminiErrorPrefix + Take(errMsg, 100) + "..."
          || report == GeminiFailedPrefix + Take(errMsg, 50) + "..."
    ensures StartsWith(report, GeminiErrorPrefix) || StartsWith(report, GeminiFailedPrefix)
  {
    if report == GeminiErrorPrefix + Take(errMsg, 100) + "..." {
      assert report == GeminiErrorPrefix + (Take(errMsg, 100) + "...");
      PrefixedStartsWith(GeminiErrorPrefix, Take(errMsg, 100) + "...");
    } else {
      assert report == GeminiFailedPrefix + (Take(errMsg, 50) + "...");
      PrefixedStartsWith(GeminiFailedPrefix, Take(errMsg, 50) + "...");
    }
  }

  /** A character of `t` missing from `s` keeps `t` out of `s`. */
  lemma MissingCharNotContained(s: string, t: string, j: int)
    requires 0 <= j < |t| && t[j] !in s
    ensures !Contains(s, t)
  {
    ContainsIff(s, t);
    forall i | 0 <= i && i + |t| <= |s| ensures !OccursAt(s, t, i) {
      assert s[i..i + |t|][j] == s[i + j];
      assert s[i + j] in s;
    }
  }

  /** An empty Gemini reply always earns a second try with the fallback model. */
  lemma GeminiEmptyReplyFallsBack(base64Image: string, generate: string -> GeminiReply,
                                  parse: string -> Option<ScannedFood>)
    requires generate(GeminiPrimary).Generated? && generate(GeminiPrimary).text == ""
    ensures CallGemini(base64Image, generate, parse).modelsCalled == [GeminiPrimary, GeminiFallback]
  {
    var m := EmptyResponseMessage(generate(GeminiPrimary).finishReason);
    assert OccursAt(m, "Empty response", 0);
    ContainsAt(m, "Empty response", 0);
  }

  /**
   * An unparsable Gemini reply is not retried: the parse error goes out at once, so
   * only a rate-limit, quota or empty-reply error reaches the fallback model.
   */
  lemma GeminiParseFailureNotRetried(base64Image: string, generate: string -> GeminiReply,
                                     parse: string -> Option<ScannedFood>)
    requires generate(GeminiPrimary).Generated? && generate(GeminiPrimary).text != ""
    requires ParseResponse(generate(GeminiPrimary).text, parse).None?
    ensures CallGemini(base64Image, generate, parse)
      == GeminiRun(Err(GeminiErrorPrefix + ParseFailedMessage + "..."), [GeminiPrimary])
  {
    var first := CallGeminiModel(GeminiPrimary, base64Image, generate(GeminiPrimary), parse);
    assert first == Err(ParseFailedMessage);
    ParseFailureNoFallback();
    TakeShort(ParseFailedMessage, 100);
  }

  /** The parse-failure message holds none of the words that trigger the fallback. */
  lemma ParseFailureNoFallback()
    ensures !ShouldFallback(ParseFailedMessage)
  {
    NoFallbackWithoutLeadChars(ParseFailedMessage);
  }

  /** A text without the first letters of the fallback words triggers no fallback. */
  lemma NoFallbackWithoutLeadChars(msg: string)
    requires '4' !in msg && 'R' !in msg && 'q' !in msg && 'E' !in msg
    ensures !ShouldFallback(msg)
  {
    MissingCharNotContained(msg, "429", 0);
    MissingCharNotContained(msg, "RESOURCE_EXHAUSTED", 0);
    MissingCharNotContained(msg, "quota", 0);
    MissingCharNotContained(msg, "Empty response", 0);
  }

  /** Any of the four trigger words, anywhere in the error and with any text around it, triggers the fallback. */
  lemma FallbackOnTriggerWord(before: string, word: string, after: string)
    requires word == "429" || word == "RESOURCE_EXHAUSTED" || word == "quota" || word == "Empty response"
    ensures ShouldFallback(before + word + after)
  {
    var s := before + word + after;
    assert s[|before|..|before| + |word|] == word;
    ContainsAt(s, word, |before|);
  }

  /** When the primary model fails with a quota error and the fallback succeeds, the fallback's result is used. */
  lemma GeminiFallbackWins(base64Image: string, generate: string -> GeminiReply,
                           parse: string -> Option<ScannedFood>)
    requires generate(GeminiPrimary).SdkThrew? && ShouldFallback(ErrorText(generate(GeminiPrimary).error))
    requires CallGeminiModel(GeminiFallback, base64Image, generate(GeminiFallback), parse).Ok?
    ensures var run := CallGemini(base64Image, generate, parse);
      run.result.Ok? && run.result.value.sourceModel == Some(GeminiFallback)
      && run.modelsCalled == [GeminiPrimary, GeminiFallback]
  {
  }

  /** When both models fail, the report keeps the first 50 characters of the primary's error. */
  lemma GeminiBothFail(base64Image: string, generate: string -> GeminiReply,
                       parse: string -> Option<ScannedFood>)
    requires var first := CallGeminiModel(GeminiPrimary, base64Image, generate(GeminiPrimary), parse);
      first.Err? && ShouldFallback(first.message)
    requires CallGeminiModel(GeminiFallback, base64Image, generate(GeminiFallback), parse).Err?
    ensures var first := CallGeminiModel(GeminiPrimary, base64Image, generate(GeminiPrimary), parse);
      var run := CallGemini(base64Image, generate, parse);
      run.result == Err(GeminiFailedPrefix + Take(first.message, 50) + "...")
      && run.modelsCalled == [GeminiPrimary, GeminiFallback]
    ensures var first := CallGeminiModel(GeminiPrimary, base64Image, generate(GeminiPrimary), parse);
      var cut := Take(first.message, 50);
      |cut| == (if |first.message| < 50 then |first.message| else 50) && StartsWith(first.message, cut)
  {
    var first := CallGeminiModel(GeminiPrimary, base64Image, generate(GeminiPrimary), parse);
    var cut := Take(first.message, 50);
    assert first.message[..|cut|] == cut;
  }

  // ---------------------------------------------------------------------------
  // OpenAI-compatible provider
  // ---------------------------------------------------------------------------

  /** What `fetch` gives: a thrown error, or an HTTP status and body text. */
  datatype HttpReply = FetchThrew(error: JsError) | Responded(status: int, body: string)

  /** The two message fields of a JSON error body ("" when absent). */
  datatype ErrorBody = ErrorBody(errorMessage: string, message: string)

  /**
   * A success body as read by `response.json()`: either it is not JSON (the thrown
   * error), or it has an optional `choices` list, each choice given by the content of
   * its message ("" when absent).
   */
  datatype ChatBody = NotJson(error: JsError) | ChatJson(choices: Option<seq<string>>)

  const KeyInvalidMessage: string := "OpenAI: Key 无效 (401)"
  const NoBalanceMessage: string := "OpenAI: 余额不足/配额已用完 (请充值)"
  const ForbiddenMessage: string := "OpenAI: 403 禁止访问 (API防火墙拦截 或 余额不足)"
  const BadPathMessage: string := "OpenAI: 路径错误 (404) - 请检查 Base URL"
  const NoChoicesMessage: string := "OpenAI: 返回数据格式错误 (无 choices)"
  const EmptyContentMessage: string := "OpenAI: 返回内容为空"
  const UnparsableMessage: string := "OpenAI: 无法解析 JSON (查看控制台)"

  function NoVisionMessage(model: string): string {
    "OpenAI: 模型 " + model + " 不支持图片识别。请更换为支持 Vision 的模型 (如 Qwen2-VL)。"
  }

  /** `(errJson.error?.message || errJson.message || "").toLowerCase()`, or "" when the body is not JSON. */
  function DetailedError(errText: string, errorFields: string -> Option<ErrorBody>): string {
    match errorFields(errText)
    case None => ""
    case Some(b) => ToLowerAscii(if b.errorMessage != "" then b.errorMessage else b.message)
  }

  predicate IsQuotaError(detail: string) {
    Contains(detail, "balance") || Contains(detail, "quota") || Contains(detail, "credit")
    || Contains(detail, "payment")
  }

  /** The message thrown for a non-2xx response, decided in the source's order. */
  function HttpErrorMessage(status: int, errText: string, detail: string, model: string): (r: string)
    ensures forall f :: SelectsFailure(f, status, errText, detail, model) ==> r == FailureMessage(f, errText, detail, model)
  {
    if status == 401 then KeyInvalidMessage
    else if status == 402 || (status == 403 && IsQuotaError(detail)) then NoBalanceMessage
    else if status == 403 then ForbiddenMessage
    else if status == 404 then BadPathMessage
    else if status == 400 && (Contains(errText, "vision") || Contains(errText, "image") || Contains(model, "deepseek-chat"))
    then NoVisionMessage(model)
    else "OpenAI Error (" + IntToString(status) + "): " + (if detail != "" then detail else Take(errText, 100))
  }

  /** The kinds of failure the classifier tells apart. */
  datatype HttpFailure = KeyInvalid | NoBalance | Forbidden | BadPath | NoVision | OtherStatus(status: int)

  /** The status codes, body words and model names that select each kind. */
  predicate SelectsFailure(f: HttpFailure, status: int, errText: string, detail: string, model: string) {
    match f
    case KeyInvalid => status == 401
    case NoBalance => status == 402 || (status == 403 && IsQuotaError(detail))
    case Forbidden => status == 403 && !IsQuotaError(detail)
    case BadPath => status == 404
    case NoVision => status == 400 && (Contains(errText, "vision") || Contains(errText, "image") || Contains(model, "deepseek-chat"))
    case OtherStatus(s) =>
      (s == status && status !in {401, 402, 403, 404}
       && !(status == 400 && (Contains(errText, "vision") || Contains(errText, "image") || Contains(model, "deepseek-chat"))))
  }

  function FailureMessage(f: HttpFailure, errText: string, detail: string, model: string): string {
    match f
    case KeyInvalid => KeyInvalidMessage
    case NoBalance => NoBalanceMessage
    case Forbidden => ForbiddenMessage
    case BadPath => BadPathMessage
    case NoVision => NoVisionMessage(model)
    case OtherStatus(s) => "OpenAI Error (" + IntToString(s) + "): " + (if detail != "" then detail else Take(errText, 100))
  }

  /**
   * Every failing response selects exactly one kind, and the classifier reports that
   * kind's message: the checks never overlap, whatever order they are read in.
   */
  lemma HttpErrorClassified(status: int, errText: string, detail: string, model: string, f: HttpFailure)
    requires SelectsFailure(f, status, errText, detail, model)
    ensures HttpErrorMessage(status, errText, detail, model) == FailureMessage(f, errText, detail, model)
    ensures forall g :: SelectsFailure(g, status, errText, detail, model) ==> g == f
  {
  }

  /** `callOpenAI` once a 2xx response is in: the first choice's content, parsed. */
  function ChatResult(model: string, base64Image: string, body: ChatBody,
                      parse: string -> Option<ScannedFood>): (r: Result<ScannedFood>)
    ensures r.Ok? <==> (body.ChatJson? && body.choices.Some? && |body.choices.value| > 0
                        && body.choices.value[0] != "" && ParseResponse(body.choices.value[0], parse).Some?)
    ensures r.Ok? ==> r.value == Stamped(ParseResponse(body.choices.value[0], parse).value, base64Image, model)
  {
    match body
    case NotJson(e) => Err(e.message)
    case ChatJson(choices) =>
      if choices.None? || |choices.value| == 0 then Err(NoChoicesMessage)
      else if choices.value[0] == "" then Err(EmptyContentMessage)
      else match ParseResponse(choices.value[0], parse)
        case None => Err(UnparsableMessage)
        case Some(food) => Ok(Stamped(food, base64Image, model))
  }

  predicate IsOkStatus(status: int) {
    200 <= status <= 299
  }

  /**
   * `callOpenAI`: the request goes to the normalised endpoint; a thrown `fetch` error
   * passes through, a non-2xx status is classified, a 2xx body is read for its first choice.
   */
  function CallOpenAI(base64Image: string, baseUrl: string, model: string,
                      fetch: string -> HttpReply, errorFields: string -> Option<ErrorBody>,
                      chat: string -> ChatBody, parse: string -> Option<ScannedFood>): (r: Result<ScannedFood>)
    ensures r.Ok? ==> (fetch(Endpoint(baseUrl)).Responded? && IsOkStatus(fetch(Endpoint(baseUrl)).status)
                       && r.value.sourceModel == Some(model) && r.value.image == ImageDataUrl(base64Image))
    ensures var reply := fetch(Endpoint(baseUrl));
      reply.FetchThrew? ==> r == Err(reply.error.message)
    ensures var reply := fetch(Endpoint(baseUrl));
      reply.Responded? && !IsOkStatus(reply.status)
      ==> r == Err(HttpErrorMessage(reply.status, reply.body, DetailedError(reply.body, errorFields), model))
    ensures var reply := fetch(Endpoint(baseUrl));
      reply.Responded? && IsOkStatus(reply.status) ==> r == ChatResult(model, base64Image, chat(reply.body), parse)
  {
    match fetch(Endpoint(baseUrl))
    case FetchThrew(e) => Err(e.message)
    case Responded(status, body) =>
      if !IsOkStatus(status) then Err(HttpErrorMessage(status, body, DetailedError(body, errorFields), model))
      else ChatResult(model, base64Image, chat(body), parse)
  }

  // ---------------------------------------------------------------------------
  // Orchestration
  // ---------------------------------------------------------------------------

  /** The environment the orchestrator reads; "" stands for an unset variable. */
  datatype AiConfig = AiConfig(
    geminiKey: string,
    openAIKey: string,
    openAIBaseUrl: string,
    envBaseUrl: string,
    openAIModelName: string,
    envModelName: string)

  const DefaultModel: string := "deepseek-chat"
  const NoKeyMessage: string := "❌ 未配置有效的 API Key。\n请在 .env 中配置 GEMINI_API_KEY 或 OPENAI_API_KEY。"
  const FailurePrefix: string := "所有模型识别失败:\n- "

  /** A real Gemini key: longer than five characters and not the placeholder. */
  predicate GeminiEligible(cfg: AiConfig) {
    |cfg.geminiKey| > 5 && !Contains(cfg.geminiKey, "AIzaSy...")
  }

  predicate OpenAIEligible(cfg: AiConfig) {
    |cfg.openAIKey| > 5
  }

  /** The first set value among the process variable, the build variable and the default. */
  function FirstSet(a: string, b: string, default: string): (r: string)
    ensures r == a || r == b || r == default
    ensures r == "" ==> default == ""
    ensures a != "" ==> r == a
    ensures a == "" && b != "" ==> r == b
    ensures a == "" && b == "" ==> r == default
  {
    if a != "" then a else if b != "" then b else default
  }

  function ResolvedBaseUrl(cfg: AiConfig): string {
    FirstSet(cfg.openAIBaseUrl, cfg.envBaseUrl, DefaultBaseUrl)
  }

  function ResolvedModel(cfg: AiConfig): (m: string)
    ensures m != ""
  {
    FirstSet(cfg.openAIModelName, cfg.envModelName, DefaultModel)
  }

  /** `l.trim() !== ''`. */
  predicate NonBlank(l: string) {
    Trim(l) != ""
  }

  /** The race's rejection message turned into a bulleted list of its non-blank lines. */
  function AggregateFailure(raceMessage: string): (m: string)
    ensures StartsWith(m, FailurePrefix)
  {
    var lines := Filter(Split(raceMessage, '\n'), NonBlank);
    FailurePrefix + (if |lines| > 0 then Join(lines, "\n- ") else raceMessage)
  }

  /**
   * Single-line provider messages: the non-blank ones come out one per bullet, in
   * order, and the blank ones are dropped; when all are blank the message is kept whole.
   */
  lemma AggregateListsMessages(ms: seq<string>)
    requires |ms| >= 1
    requires forall k :: 0 <= k < |ms| ==> '\n' !in ms[k]
    ensures (exists k :: 0 <= k < |ms| && NonBlank(ms[k]))
      ==> AggregateFailure(Join(ms, "\n")) == FailurePrefix + Join(Filter(ms, NonBlank), "\n- ")
    ensures (forall k :: 0 <= k < |ms| ==> !NonBlank(ms[k]))
      ==> AggregateFailure(Join(ms, "\n")) == FailurePrefix + Join(ms, "\n")
  {
    SplitJoin(ms, '\n');
    if exists k :: 0 <= k < |ms| && NonBlank(ms[k]) {
      var k :| 0 <= k < |ms| && NonBlank(ms[k]);
      assert ms[k] in Filter(ms, NonBlank);
    } else {
      FilterNone(ms, NonBlank);
    }
  }

  function AsSettlement(r: Result<ScannedFood>): Settlement<ScannedFood> {
    match r
    case Ok(v) => Fulfilled(v)
    case Err(m) => Rejected(m)
  }

  function Settlements(rs: seq<Result<ScannedFood>>): (s: seq<Settlement<ScannedFood>>)
    ensures |s| == |rs| && forall k :: 0 <= k < |rs| ==> s[k] == AsSettlement(rs[k])
  {
    if |rs| == 0 then [] else [AsSettlement(rs[0])] + Settlements(rs[1..])
  }

  /** A provider request `identifyFood` has started: the pending promise it pushed. */
  datatype ProviderCall = GeminiCall | OpenAICall(baseUrl: string, model: string)

  /** The providers `identifyFood` starts, in the order it pushes their promises. */
  function ProviderCalls(cfg: AiConfig): (calls: seq<ProviderCall>)
    ensures |calls| == (if GeminiEligible(cfg) then 1 else 0) + (if OpenAIEligible(cfg) then 1 else 0)
    ensures forall k :: 0 <= k < |calls| ==> (calls[k].GeminiCall? <==> k == 0 && GeminiEligible(cfg))
  {
    (if GeminiEligible(cfg) then [GeminiCall] else [])
    + (if OpenAIEligible(cfg) then [OpenAICall(ResolvedBaseUrl(cfg), ResolvedModel(cfg))] else [])
  }

  /** How a started request settles: `callGemini`, or `callOpenAI` with its base URL and model. */
  function Settle(call: ProviderCall, base64Image: string,
                  generate: string -> GeminiReply, fetch: string -> HttpReply,
                  errorFields: string -> Option<ErrorBody>, chat: string -> ChatBody,
                  parse: string -> Option<ScannedFood>): (r: Result<ScannedFood>)
    ensures r.Ok? ==> r.value.image == ImageDataUrl(base64Image)
  {
    match call
    case GeminiCall => CallGemini(base64Image, generate, parse).result
    case OpenAICall(baseUrl, model) => CallOpenAI(base64Image, baseUrl, model, fetch, errorFields, chat, parse)
  }

  /** The outcomes of the started requests, in the order they were submitted. */
  function Outcomes(calls: seq<ProviderCall>, base64Image: string,
                    generate: string -> GeminiReply, fetch: string -> HttpReply,
                    errorFields: string -> Option<ErrorBody>, chat: string -> ChatBody,
                    parse: string -> Option<ScannedFood>): (rs: seq<Result<ScannedFood>>)
    ensures |rs| == |calls|
  {
    seq(|calls|, k requires 0 <= k < |calls| => Settle(calls[k], base64Image, generate, fetch, errorFields, chat, parse))
  }

  /** Every success among the outcomes carries the captured picture. */
  lemma OutcomesStamped(calls: seq<ProviderCall>, base64Image: string,
                        generate: string -> GeminiReply, fetch: string -> HttpReply,
                        errorFields: string -> Option<ErrorBody>, chat: string -> ChatBody,
                        parse: string -> Option<ScannedFood>)
    ensures var rs := Outcomes(calls, base64Image, generate, fetch, errorFields, chat, parse);
      forall k :: 0 <= k < |rs| && rs[k].Ok? ==> rs[k].value.image == ImageDataUrl(base64Image)
  {
  }

  /** The order the submitted tasks settle in: as submitted, or the two swapped. */
  function SettleOrder(tasks: seq<Result<ScannedFood>>, openAISettlesFirst: bool): (s: seq<Result<ScannedFood>>)
    ensures |s| == |tasks| && multiset(s) == multiset(tasks)
  {
    if openAISettlesFirst && |tasks| == 2 then
      assert tasks == [tasks[0]] + [tasks[1]];
      [tasks[1], tasks[0]]
    else tasks
  }

  /** The race's outcome as `identifyFood` reports it. */
  function Reported(race: Result<ScannedFood>): Result<ScannedFood> {
    match race
    case Ok(v) => Ok(v)
    case Err(m) => Err(AggregateFailure(m))
  }

  /** How the attempted providers are named: "Gemini", and "OpenAI(<model>)". */
  const GeminiLabel: string := "Gemini"

  function OpenAILabel(model: string): string {
    "OpenAI(" + model + ")"
  }

  /** How `identifyFood` names a started provider. */
  function Label(call: ProviderCall): (l: string)
    ensures call.OpenAICall? ==> l == OpenAILabel(call.model)
  {
    match call
    case GeminiCall => GeminiLabel
    case OpenAICall(_, model) => OpenAILabel(model)
  }

  /**
   * The first half of `identifyFood`: Gemini and then the OpenAI-compatible provider
   * are started when their keys qualify, and each started provider is named.
   */
  method StartProviders(cfg: AiConfig) returns (calls: seq<ProviderCall>, attempted: seq<string>)
    ensures calls == ProviderCalls(cfg)
    ensures |attempted| == |calls| && forall k :: 0 <= k < |calls| ==> attempted[k] == Label(calls[k])
  {
    calls := [];
    attempted := [];
    if GeminiEligible(cfg) {
      attempted := attempted + [GeminiLabel];
      calls := calls + [GeminiCall];
    }
    if OpenAIEligible(cfg) {
      var model := ResolvedModel(cfg);
      attempted := attempted + [OpenAILabel(model)];
      calls := calls + [OpenAICall(ResolvedBaseUrl(cfg), model)];
    }
  }

  /**
   * `identifyFood`: with no provider started the call fails before any request.
   * Otherwise the started requests race, settling in the given order
   * (`openAISettlesFirst` swaps the two when both run), and the race's outcome is reported.
   */
  method IdentifyFood(base64Image: string, cfg: AiConfig,
                      generate: string -> GeminiReply, fetch: string -> HttpReply,
                      errorFields: string -> Option<ErrorBody>, chat: string -> ChatBody,
                      parse: string -> Option<ScannedFood>, openAISettlesFirst: bool)
    returns (result: Result<ScannedFood>, attempted: seq<string>)
    ensures var calls := ProviderCalls(cfg);
      |attempted| == |calls| && forall k :: 0 <= k < |calls| ==> attempted[k] == Label(calls[k])
    ensures |attempted| == 0 ==> result == Err(NoKeyMessage)
    ensures |attempted| > 0 ==>
      var tasks := Outcomes(ProviderCalls(cfg), base64Image, generate, fetch, errorFields, chat, parse);
      result == Reported(RaceResult(Settlements(SettleOrder(tasks, openAISettlesFirst))))
  {
    var calls;
    calls, attempted := StartProviders(cfg);
    if |calls| == 0 {
      return Err(NoKeyMessage), attempted;
    }
    var tasks := Outcomes(calls, base64Image, generate, fetch, errorFields, chat, parse);
    var race := PromiseAny(Settlements(SettleOrder(tasks, openAISettlesFirst)));
    match race {
      case Ok(v) => result := Ok(v);
      case Err(m) => result := Err(AggregateFailure(m));
    }
  }

  /** The first fulfilment is one of the fulfilled settlements. */
  lemma {:induction false} FirstFulfilledOccurs<T>(s: seq<Settlement<T>>)
    requires FirstFulfilled(s).Some?
    ensures exists i :: 0 <= i < |s| && s[i] == Fulfilled(FirstFulfilled(s).value)
  {
    var init := s[..|s| - 1];
    if FirstFulfilled(init).Some? {
      FirstFulfilledOccurs(init);
      var i :| 0 <= i < |init| && init[i] == Fulfilled(FirstFulfilled(init).value);
      assert s[i] == init[i];
    } else {
      assert s[|s| - 1] == Fulfilled(FirstFulfilled(s).value);
    }
  }

  /**
   * Recognition succeeds exactly when some started provider succeeds, and then the
   * answer is one of the providers' answers, whichever order they settle in.
   */
  lemma IdentifySucceedsIff(tasks: seq<Result<ScannedFood>>, openAISettlesFirst: bool)
    requires |tasks| > 0
    ensures var r := Reported(RaceResult(Settlements(SettleOrder(tasks, openAISettlesFirst))));
      (r.Ok? <==> exists k :: 0 <= k < |tasks| && tasks[k].Ok?)
      && (r.Ok? ==> Ok(r.value) in tasks)
  {
    var order := SettleOrder(tasks, openAISettlesFirst);
    var s := Settlements(order);
    RaceOkIff(s);
    if exists k :: 0 <= k < |tasks| && tasks[k].Ok? {
      var k :| 0 <= k < |tasks| && tasks[k].Ok?;
      assert tasks[k] in multiset(order);
      var j :| 0 <= j < |order| && order[j] == tasks[k];
      assert s[j].Fulfilled?;
    }
    if RaceResult(s).Ok? {
      FirstFulfilledOccurs(s);
      var i :| 0 <= i < |s| && s[i] == Fulfilled(FirstFulfilled(s).value);
      assert order[i] == Ok(FirstFulfilled(s).value);
      assert order[i] in multiset(tasks);
    } else {
      forall k | 0 <= k < |tasks| ensures tasks[k].Err? {
        assert tasks[k] in multiset(order);
        var j :| 0 <= j < |order| && order[j] == tasks[k];
        assert s[j].Rejected?;
      }
    }
  }

  /**
   * When every provider fails with a one-line message, the report lists the non-blank
   * messages one per bullet, in the order they settled.
   */
  lemma AllFailedReport(rs: seq<Result<ScannedFood>>, ms: seq<string>)
    requires |rs| >= 1 && |ms| == |rs|
    requires forall k :: 0 <= k < |rs| ==> rs[k] == Err(ms[k]) && '\n' !in ms[k]
    ensures (exists k :: 0 <= k < |ms| && NonBlank(ms[k]))
      ==> Reported(RaceResult(Settlements(rs))) == Err(FailurePrefix + Join(Filter(ms, NonBlank), "\n- "))
    ensures (forall k :: 0 <= k < |ms| ==> !NonBlank(ms[k]))
      ==> Reported(RaceResult(Settlements(rs))) == Err(FailurePrefix + Join(ms, "\n"))
  {
    var s := Settlements(rs);
    RaceAllRejected(s);
    assert RejectionMessages(s) == ms;
    AggregateListsMessages(ms);
  }
}
