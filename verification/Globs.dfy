/** `ssh_config` host patterns: the last-star backtracking loop against the language of a pattern. */
module Globs {
  import opened Options

  function LowerChar(c: char): char {
    if 'A' <= c <= 'Z' then (c as int - 'A' as int + 'a' as int) as char else c
  }

  /** ASCII lower-casing, character by character. */
  function Lower(s: string): (r: string)
    ensures |r| == |s|
  {
    seq(|s|, i requires 0 <= i < |s| => LowerChar(s[i]))
  }

  const CAPITALS: string := "ABCDEFGHIJKLMNOPQRSTUVWXYZ"
  const SMALL: string := "abcdefghijklmnopqrstuvwxyz"

  /** Only the 26 ASCII capitals change, each to its small letter. */
  lemma LowerFoldsCapitals(c: char)
    ensures forall i :: 0 <= i < 26 ==> LowerChar(CAPITALS[i]) == SMALL[i]
    ensures c !in CAPITALS ==> LowerChar(c) == c
  {
    if 'A' <= c <= 'Z' {
      assert CAPITALS[c as int - 'A' as int] == c;
    }
  }

  // ---- The language of a pattern ----

  /** `*` stands for any run, `?` for one character, anything else for itself. */
  ghost predicate InLanguage(pattern: string, text: string)
    decreases |pattern|
  {
    if pattern == [] then text == []
    else if pattern[0] == '*' then exists k :: 0 <= k <= |text| && InLanguage(pattern[1..], text[k..])
    else text != [] && (pattern[0] == '?' || pattern[0] == text[0]) && InLanguage(pattern[1..], text[1..])
  }

  predicate AllStars(pattern: string) {
    forall i :: 0 <= i < |pattern| ==> pattern[i] == '*'
  }

  // ---- The loop as a function of its variables ----

  ghost predicate ValidState(needle: string, hay: string, p: nat, t: nat, star: Option<nat>, mark: nat) {
    && p <= |needle| && mark <= t <= |hay|
    && (star.Some? ==> star.value < p && needle[star.value] == '*')
  }

  /** What the loop answers from the given values of its variables. The measure is lexicographic:
      backtracking moves `mark` forward, a match moves `t`, and a star moves `p`. */
  ghost predicate Scan(needle: string, hay: string, p: nat, t: nat, star: Option<nat>, mark: nat)
    requires ValidState(needle, hay, p, t, star, mark)
    decreases |hay| - mark, |hay| - t, |needle| - p
  {
    if t == |hay| then AllStars(needle[p..])
    else if p < |needle| && (needle[p] == '?' || needle[p] == hay[t]) then Scan(needle, hay, p + 1, t + 1, star, mark)
    else if p < |needle| && needle[p] == '*' then Scan(needle, hay, p + 1, t, Some(p), t)
    else if star.Some? then Scan(needle, hay, star.value + 1, mark + 1, star, mark + 1)
    else false
  }

  ghost predicate Accepts(pattern: string, text: string) {
    Scan(Lower(pattern), Lower(text), 0, 0, None, 0)
  }

  method GlobMatch(pattern: string, text: string) returns (matched: bool)
    ensures matched <==> Accepts(pattern, text)
  {
    var needle, hay := Lower(pattern), Lower(text);
    var p: nat, t: nat, star, mark: nat := 0, 0, None, 0;
    while t < |hay|
      invariant ValidState(needle, hay, p, t, star, mark)
      invariant Scan(needle, hay, p, t, star, mark) <==> Accepts(pattern, text)
      decreases |hay| - mark, |hay| - t, |needle| - p
    {
      if p < |needle| && (needle[p] == '?' || needle[p] == hay[t]) {
        p := p + 1;
        t := t + 1;
      } else if p < |needle| && needle[p] == '*' {
        star := Some(p);
        mark := t;
        p := p + 1;
      } else if star.Some? {
        p := star.value + 1;
        mark := mark + 1;
        t := mark;
      } else {
        return false;
      }
    }
    while p < |needle| && needle[p] == '*'
      invariant p <= |needle|
      invariant AllStars(needle[p..]) <==> Accepts(pattern, text)
    {
      assert needle[p..] == ['*'] + needle[p + 1..];
      p := p + 1;
    }
    if p < |needle| {
      assert needle[p..][0] != '*';
    }
    matched := p == |needle|;
  }

  /** A negated pattern that matches excludes the host outright; otherwise one positive match is
      enough. `patterns` is the host line split at white space. */
  method HostMatches(patterns: seq<string>, host: string) returns (matched: bool)
    ensures matched <==> (exists i :: 0 <= i < |patterns| && (patterns[i] == "" || patterns[i][0] != '!')
                                      && Accepts(patterns[i], host))
                         && !(exists i :: 0 <= i < |patterns| && patterns[i] != "" && patterns[i][0] == '!'
                                         && Accepts(patterns[i][1..], host))
  {
    matched := false;
    for n := 0 to |patterns|
      invariant matched <==> exists i :: 0 <= i < n && !Negated(patterns[i]) && Accepts(patterns[i], host)
      invariant !exists i :: 0 <= i < n && Negated(patterns[i]) && Accepts(patterns[i][1..], host)
    {
      if Negated(patterns[n]) {
        var excluded := GlobMatch(patterns[n][1..], host);
        if excluded {
          return false;
        }
      } else {
        var accepted := GlobMatch(patterns[n], host);
        matched := matched || accepted;
      }
    }
  }

  predicate Negated(pattern: string) {
    pattern != [] && pattern[0] == '!'
  }

  // ---- The loop never accepts too much ----

  /** The text that is left belongs to the pattern that is left, or some later position after the
      last star does. */
  ghost predicate Promising(needle: string, hay: string, p: nat, t: nat, star: Option<nat>, mark: nat)
    requires ValidState(needle, hay, p, t, star, mark)
  {
    InLanguage(needle[p..], hay[t..]) || Retry(needle, hay, star, mark)
  }

  ghost predicate Retry(needle: string, hay: string, star: Option<nat>, mark: nat)
    requires star.Some? ==> star.value < |needle|
  {
    star.Some? && exists k :: mark < k <= |hay| && InLanguage(needle[star.value + 1..], hay[k..])
  }

  lemma {:induction false} EmptyTextLanguage(pattern: string)
    ensures InLanguage(pattern, []) <==> AllStars(pattern)
  {
    if pattern != [] {
      EmptyTextLanguage(pattern[1..]);
      assert AllStars(pattern) <==> pattern[0] == '*' && AllStars(pattern[1..]) by {
        assert pattern == [pattern[0]] + pattern[1..];
      }
      if pattern[0] == '*' {
        var none: string := [];
        assert none[0..] == none;
        assert InLanguage(pattern[1..], none) ==> InLanguage(pattern[1..], none[0..]);
      }
    }
  }

  /** A star takes any part of the text. */
  lemma StarTakes(needle: string, hay: string, p: nat, t: nat, k: nat)
    requires p < |needle| && needle[p] == '*' && t <= k <= |hay|
    requires InLanguage(needle[p + 1..], hay[k..])
    ensures InLanguage(needle[p..], hay[t..])
  {
    assert needle[p..][1..] == needle[p + 1..];
    assert hay[t..][k - t..] == hay[k..];
  }

  lemma StarSplits(pattern: string, text: string) returns (j: nat)
    requires pattern != [] && pattern[0] == '*' && InLanguage(pattern, text)
    ensures j <= |text| && InLanguage(pattern[1..], text[j..])
  {
    j :| 0 <= j <= |text| && InLanguage(pattern[1..], text[j..]);
  }

  lemma StarTook(needle: string, hay: string, p: nat, t: nat) returns (k: nat)
    requires p < |needle| && needle[p] == '*' && t <= |hay|
    requires InLanguage(needle[p..], hay[t..])
    ensures t <= k <= |hay| && InLanguage(needle[p + 1..], hay[k..])
  {
    hide InLanguage;
    assert needle[p..][1..] == needle[p + 1..];
    var j := StarSplits(needle[p..], hay[t..]);
    assert hay[t..][j..] == hay[t + j..];
    k := t + j;
  }

  lemma LiteralStep(needle: string, hay: string, p: nat, t: nat)
    requires p < |needle| && t < |hay| && needle[p] != '*'
    ensures InLanguage(needle[p..], hay[t..])
            <==> (needle[p] == '?' || needle[p] == hay[t]) && InLanguage(needle[p + 1..], hay[t + 1..])
  {
    assert needle[p..][1..] == needle[p + 1..];
    assert hay[t..][1..] == hay[t + 1..];
  }

  /** For every text: what the loop accepts is in the language. */
  lemma {:induction false} ScanIsSound(needle: string, hay: string, p: nat, t: nat, star: Option<nat>, mark: nat)
    requires ValidState(needle, hay, p, t, star, mark) && Scan(needle, hay, p, t, star, mark)
    ensures Promising(needle, hay, p, t, star, mark)
    decreases |hay| - mark, |hay| - t, |needle| - p
  {
    hide InLanguage;
    if t == |hay| {
      EmptyTextLanguage(needle[p..]);
      assert hay[t..] == [];
    } else if p < |needle| && (needle[p] == '?' || needle[p] == hay[t]) {
      ScanIsSound(needle, hay, p + 1, t + 1, star, mark);
      if InLanguage(needle[p + 1..], hay[t + 1..]) {
        if needle[p] == '*' {
          StarTakes(needle, hay, p, t, t + 1);
        } else {
          LiteralStep(needle, hay, p, t);
        }
      }
    } else if p < |needle| && needle[p] == '*' {
      ScanIsSound(needle, hay, p + 1, t, Some(p), t);
      var k := t;
      if !InLanguage(needle[p + 1..], hay[t..]) {
        k :| t < k <= |hay| && InLanguage(needle[p + 1..], hay[k..]);
      }
      StarTakes(needle, hay, p, t, k);
    } else {
      ScanIsSound(needle, hay, star.value + 1, mark + 1, star, mark + 1);
    }
  }

  lemma AcceptedIsInLanguage(pattern: string, text: string)
    requires Accepts(pattern, text)
    ensures InLanguage(Lower(pattern), Lower(text))
  {
    hide Scan, InLanguage;
    var needle, hay := Lower(pattern), Lower(text);
    ScanIsSound(needle, hay, 0, 0, None, 0);
    assert needle[0..] == needle && hay[0..] == hay;
  }

  // ---- On texts without a star the loop is exact ----

  /** Since the last star only star-free pattern characters have been matched, one by one. */
  ghost predicate InStep(needle: string, p: nat, t: nat, star: Option<nat>, mark: nat) {
    star.Some? ==>
      && star.value < p <= |needle| && t - mark == p - star.value - 1
      && forall i :: star.value < i < p ==> needle[i] != '*'
  }

  /** A star-free stretch of the pattern takes exactly as many characters. */
  lemma {:induction false} StretchTakes(needle: string, hay: string, from: nat, p: nat, k: nat)
    requires from <= p <= |needle| && k <= |hay|
    requires forall i :: from <= i < p ==> needle[i] != '*'
    requires InLanguage(needle[from..], hay[k..])
    ensures k + (p - from) <= |hay| && InLanguage(needle[p..], hay[k + (p - from)..])
    decreases p - from
  {
    hide InLanguage;
    if from < p {
      NotStarTakesOne(needle, hay, from, k);
      StretchTakes(needle, hay, from + 1, p, k + 1);
    }
  }

  lemma NotStarTakesOne(needle: string, hay: string, p: nat, t: nat)
    requires p < |needle| && t <= |hay| && needle[p] != '*' && InLanguage(needle[p..], hay[t..])
    ensures t < |hay| && InLanguage(needle[p + 1..], hay[t + 1..])
  {
    assert needle[p..][1..] == needle[p + 1..];
    assert t < |hay| ==> hay[t..][1..] == hay[t + 1..];
  }

  /** Committing to a new star loses nothing: whatever a retry of the older star could match, the
      new star can. */
  lemma NewStarSubsumesRetry(needle: string, hay: string, p: nat, t: nat, star: Option<nat>, mark: nat)
    requires ValidState(needle, hay, p, t, star, mark) && InStep(needle, p, t, star, mark)
    requires p < |needle| && needle[p] == '*' && Retry(needle, hay, star, mark)
    ensures InLanguage(needle[p..], hay[t..])
  {
    hide InLanguage;
    var k :| mark < k <= |hay| && InLanguage(needle[star.value + 1..], hay[k..]);
    StretchTakes(needle, hay, star.value + 1, p, k);
    var j := StarTook(needle, hay, p, k + (p - star.value - 1));
    StarTakes(needle, hay, p, t, j);
  }

  lemma NoRetryAtEnd(needle: string, hay: string, p: nat, star: Option<nat>, mark: nat)
    requires ValidState(needle, hay, p, |hay|, star, mark) && InStep(needle, p, |hay|, star, mark)
    ensures !Retry(needle, hay, star, mark)
  {
    hide InLanguage;
    if star.Some? {
      forall k | mark < k <= |hay|
        ensures !InLanguage(needle[star.value + 1..], hay[k..])
      {
        if InLanguage(needle[star.value + 1..], hay[k..]) {
          StretchTakes(needle, hay, star.value + 1, p, k);
        }
      }
    }
  }

  lemma {:induction false} ScanIsComplete(needle: string, hay: string, p: nat, t: nat, star: Option<nat>, mark: nat)
    requires ValidState(needle, hay, p, t, star, mark) && InStep(needle, p, t, star, mark)
    requires '*' !in hay && Promising(needle, hay, p, t, star, mark)
    ensures Scan(needle, hay, p, t, star, mark)
    decreases |hay| - mark, |hay| - t, |needle| - p
  {
    hide InLanguage;
    if t == |hay| {
      NoRetryAtEnd(needle, hay, p, star, mark);
      EmptyTextLanguage(needle[p..]);
      assert hay[t..] == [];
    } else if p < |needle| && (needle[p] == '?' || needle[p] == hay[t]) {
      LiteralStep(needle, hay, p, t);
      ScanIsComplete(needle, hay, p + 1, t + 1, star, mark);
    } else if p < |needle| && needle[p] == '*' {
      if Retry(needle, hay, star, mark) {
        NewStarSubsumesRetry(needle, hay, p, t, star, mark);
      }
      var k := StarTook(needle, hay, p, t);
      ScanIsComplete(needle, hay, p + 1, t, Some(p), t);
    } else {
      MismatchNeedsRetry(needle, hay, p, t);
      var k :| mark < k <= |hay| && InLanguage(needle[star.value + 1..], hay[k..]);
      assert k > mark + 1 || k == mark + 1;
      ScanIsComplete(needle, hay, star.value + 1, mark + 1, star, mark + 1);
    }
  }

  lemma MismatchNeedsRetry(needle: string, hay: string, p: nat, t: nat)
    requires p <= |needle| && t < |hay|
    requires p < |needle| ==> needle[p] != '?' && needle[p] != hay[t] && needle[p] != '*'
    ensures !InLanguage(needle[p..], hay[t..])
  {
    if p < |needle| {
      LiteralStep(needle, hay, p, t);
    }
  }

  lemma LoweringKeepsStars(text: string)
    ensures '*' in Lower(text) <==> '*' in text
  {
    if i :| 0 <= i < |text| && text[i] == '*' {
      assert Lower(text)[i] == '*';
    }
  }

  /** On a text without a star, the loop accepts exactly the language of the pattern. */
  lemma GlobIsExact(pattern: string, text: string)
    requires '*' !in text
    ensures Accepts(pattern, text) <==> InLanguage(Lower(pattern), Lower(text))
  {
    hide Scan, InLanguage, Lower;
    var needle, hay := Lower(pattern), Lower(text);
    assert needle[0..] == needle && hay[0..] == hay;
    if Accepts(pattern, text) {
      AcceptedIsInLanguage(pattern, text);
    }
    if InLanguage(needle, hay) {
      LoweringKeepsStars(text);
      ScanIsComplete(needle, hay, 0, 0, None, 0);
    }
  }

  // ---- A star in the text defeats some pattern ----

  function Questions(n: nat): string {
    seq(n, _ => '?')
  }

  /** The text up to its first star, then a star, then one `?` for each remaining character. */
  ghost function Defeating(text: string, i: nat): string
    requires i < |text|
  {
    text[..i] + ['*'] + Questions(|text| - i)
  }

  lemma {:induction false} QuestionsTakeAll(hay: string, t: nat)
    requires t <= |hay|
    ensures InLanguage(Questions(|hay| - t), hay[t..])
    decreases |hay| - t
  {
    if t < |hay| {
      QuestionsTakeAll(hay, t + 1);
      assert Questions(|hay| - t)[1..] == Questions(|hay| - (t + 1));
      assert hay[t..][1..] == hay[t + 1..];
    }
  }

  lemma {:induction false} DefeatingInLanguage(hay: string, i: nat, t: nat)
    requires t <= i < |hay| && '*' !in hay[..i]
    ensures InLanguage(hay[t..i] + ['*'] + Questions(|hay| - i), hay[t..])
    decreases i - t
  {
    var pattern := hay[t..i] + ['*'] + Questions(|hay| - i);
    if t < i {
      DefeatingInLanguage(hay, i, t + 1);
      assert hay[..i][t] == hay[t];
      assert pattern[1..] == hay[t + 1..i] + ['*'] + Questions(|hay| - i);
      assert hay[t..][1..] == hay[t + 1..];
    } else {
      QuestionsTakeAll(hay, i);
      assert pattern[1..] == Questions(|hay| - i);
      assert hay[t..][0..] == hay[t..];
    }
  }

  /** Past the literal match of the two stars, the question marks outnumber the characters. */
  lemma {:induction false} DefeatingIsRejected(hay: string, i: nat, t: nat)
    requires i < |hay| && t <= |hay| && hay[i] == '*' && '*' !in hay[..i]
    ensures ValidState(Defeating(hay, i), hay, t, t, None, 0)
    ensures !Scan(Defeating(hay, i), hay, t, t, None, 0)
    decreases |hay| - t
  {
    var needle := Defeating(hay, i);
    if t < |hay| {
      DefeatingIsRejected(hay, i, t + 1);
      assert needle[t] == if t <= i then hay[t] else '?';
    } else {
      assert needle[t..][0] == '?';
    }
  }

  lemma FirstStar(text: string) returns (i: nat)
    requires '*' in text
    ensures i < |text| && text[i] == '*' && '*' !in text[..i]
  {
    i :| i < |text| && text[i] == '*';
    while '*' in text[..i]
      invariant i < |text| && text[i] == '*'
      decreases i
    {
      var j :| 0 <= j < i && text[..i][j] == '*';
      i := j;
    }
  }

  lemma LowerIsIdempotent(s: string)
    ensures Lower(Lower(s)) == Lower(s)
  {
  }

  /** For a text with a star, this pattern is rejected although the text is in its language. */
  lemma StarDefeats(text: string) returns (pattern: string)
    requires '*' in text
    ensures InLanguage(Lower(pattern), Lower(text)) && !Accepts(pattern, text)
  {
    hide InLanguage, Scan;
    var hay := Lower(text);
    LoweringKeepsStars(text);
    var i := FirstStar(hay);
    pattern := Defeating(hay, i);
    DefeatingIsLower(text, i);
    DefeatingInLanguage(hay, i, 0);
    DefeatingIsRejected(hay, i, 0);
    assert hay[0..i] == hay[..i] && hay[0..] == hay;
  }

  lemma DefeatingIsLower(text: string, i: nat)
    requires i < |text|
    ensures Lower(Defeating(Lower(text), i)) == Defeating(Lower(text), i)
  {
    LowerIsIdempotent(text);
    var pattern := Defeating(Lower(text), i);
    forall j | 0 <= j < |pattern|
      ensures LowerChar(pattern[j]) == pattern[j]
    {
      assert j < i ==> pattern[j] == Lower(text)[j] && Lower(Lower(text))[j] == LowerChar(Lower(text)[j]);
    }
  }

  /** Case does not matter, on either side. */
  lemma CaseDoesNotMatter(pattern: string, text: string, pattern': string, text': string)
    requires Lower(pattern) == Lower(pattern') && Lower(text) == Lower(text')
    ensures Accepts(pattern, text) <==> Accepts(pattern', text')
    ensures Accepts(Lower(pattern), Lower(text)) <==> Accepts(pattern, text)
  {
    hide Lower;
    LowerIsIdempotent(pattern);
    LowerIsIdempotent(text);
  }

  ghost predicate MatchedExactly(text: string) {
    forall pattern :: Accepts(pattern, text) <==> InLanguage(Lower(pattern), Lower(text))
  }

  /** Exactly when the loop is right for every pattern: the text holds no star. */
  lemma ExactIffStarless(text: string)
    ensures MatchedExactly(text) <==> '*' !in text
  {
    hide Accepts, InLanguage, Lower;
    if '*' in text {
      var pattern := StarDefeats(text);
    } else {
      forall pattern
        ensures Accepts(pattern, text) <==> InLanguage(Lower(pattern), Lower(text))
      {
        GlobIsExact(pattern, text);
      }
    }
  }
}
