/** Parsing of tqdm-style progress lines. Two patterns are tried, by leftmost search:
      rich:   (\d+)%\|[bar glyphs or space]*\|\s*(\d+)/(\d+)\s*\[([^\]]+)<([^\]]+),\s*([^\]]+)\]
      simple: (\d+)%
    The matcher below is written out by hand; its greedy choices are those of the regex engine. */
module ProgressParse {
  import opened Wrappers
  import opened Text

  /** Structured progress. The rate is never filled in by the parser. */
  datatype ProgressInfo = ProgressInfo(
    percentage: real,
    currentStep: int,
    totalSteps: int,
    rate: Option<real>,
    eta: Option<string>,
    description: string,
    elapsedTime: real)

  /** ProgressInfo() with every field at its default. */
  const EmptyProgress: ProgressInfo := ProgressInfo(0.0, 0, 0, None, None, "", 0.0)

  /** The groups of a rich match that the parser uses (the rate group is matched and dropped). */
  datatype RichMatch = RichMatch(percent: string, current: string, total: string, elapsed: string, eta: string)

  /** The bar glyphs U+2588..U+258F and the space. */
  predicate IsBarGlyph(c: char) {
    c == ' ' || ('\U{2588}' <= c <= '\U{258F}')
  }

  function DropBarGlyphs(s: string): (r: string)
    ensures |r| <= |s| && r == s[|s| - |r|..]
    ensures forall i :: 0 <= i < |s| - |r| ==> IsBarGlyph(s[i])
    ensures r == [] || !IsBarGlyph(r[0])
  {
    if s != [] && IsBarGlyph(s[0]) then DropBarGlyphs(s[1..]) else s
  }

  /** The text after the leading whitespace (what \s* consumes). */
  function DropSpaces(s: string): (r: string)
    ensures |r| <= |s| && r == s[|s| - |r|..]
    ensures r == [] || !IsSpace(r[0])
  {
    s[StripStart(s)..]
  }

  /** The longest prefix without ']'. */
  function TakeUntilClose(s: string): (r: string)
    ensures |r| <= |s| && r == s[..|r|] && ']' !in r
    ensures |r| == |s| || s[|r|] == ']'
  {
    if s != [] && s[0] != ']' then [s[0]] + TakeUntilClose(s[1..]) else []
  }

  /** Largest k in [1, j] with t[k] == ','. */
  function LastComma(t: string, j: int): (r: Option<nat>)
    requires j < |t|
    ensures r.Some? ==> 1 <= r.value <= j && t[r.value] == ','
    decreases j
  {
    if j < 1 then None else if t[j] == ',' then Some(j) else LastComma(t, j - 1)
  }

  /** `([^\]]+),\s*([^\]]+)` over a text without ']': the eta group ends at the last comma that
      has a non-empty eta before it and at least one character after it. */
  function SplitEta(t: string): (r: Option<string>)
    ensures r.Some? ==> r.value != [] && |r.value| + 2 <= |t| && r.value == t[..|r.value|] && t[|r.value|] == ','
  {
    if |t| < 3 then None
    else
      match LastComma(t, |t| - 2)
      case Some(j) => Some(t[..j])
      case None => None
  }

  /** Largest k in [1, i] with body[k] == '<' whose remainder splits into eta and rate. */
  function LastLessThan(body: string, i: int): (r: Option<nat>)
    requires i < |body|
    ensures r.Some? ==> 1 <= r.value <= i
    decreases i
  {
    if i < 1 then None
    else if body[i] == '<' && SplitEta(body[i + 1..]).Some? then Some(i)
    else LastLessThan(body, i - 1)
  }

  /** `([^\]]+)<([^\]]+),\s*([^\]]+)` over the bracket contents: (elapsed, eta). */
  function SplitTiming(body: string): (r: Option<(string, string)>)
    ensures r.Some? ==> r.value.0 != [] && r.value.1 != []
  {
    if body == [] then None
    else
      var k := LastLessThan(body, |body| - 1);
      if k.None? then None
      else match SplitEta(body[k.value + 1..])
        case Some(eta) => Some((body[..k.value], eta))
        case None => None
  }

  /** A digit immediately followed by '%' somewhere in s. */
  predicate HasPercentRun(s: string) {
    exists k :: 1 <= k < |s| && IsDigit(s[k - 1]) && s[k] == '%'
  }

  /** `[^\]]+<...]` from the opening bracket on: the bracket contents up to the first ']',
      split into elapsed and eta. */
  function MatchBracket(e: string): (r: Option<(string, string)>)
  {
    if e == [] || e[0] != '[' then None
    else
      var body := TakeUntilClose(e[1..]);
      if |body| == |e| - 1 then None else SplitTiming(body)
  }

  /** `(\d+)/(\d+)\s*[...]` from the current step on: (current, total, elapsed, eta). */
  function MatchSteps(c: string): (r: Option<(string, string, string, string)>)
    ensures r.Some? ==> r.value.0 != [] && AllDigits(r.value.0) && r.value.1 != [] && AllDigits(r.value.1)
  {
    var cur := TakeDigits(c);
    var d := c[|cur|..];
    if cur == [] || d == [] || d[0] != '/' then None
    else
      var tot := TakeDigits(d[1..]);
      if tot == [] then None
      else
        match MatchBracket(DropSpaces(d[1..][|tot|..]))
        case None => None
        case Some(timing) => Some((cur, tot, timing.0, timing.1))
  }

  /** The rich pattern anchored at the start of s. */
  function MatchRich(s: string): (r: Option<RichMatch>)
    ensures r.Some? ==> r.value.percent != [] && AllDigits(r.value.percent)
    ensures r.Some? ==> r.value.current != [] && AllDigits(r.value.current)
    ensures r.Some? ==> r.value.total != [] && AllDigits(r.value.total)
    ensures r.Some? ==> HasPercentRun(s) && '|' in s
  {
    var pct := TakeDigits(s);
    var a := s[|pct|..];
    if pct == [] || |a| < 2 || a[0] != '%' || a[1] != '|' then None
    else
      assert IsDigit(s[|pct| - 1]) && s[|pct|] == '%' && s[|pct| + 1] == '|';
      var b := DropBarGlyphs(a[2..]);
      if b == [] || b[0] != '|' then None
      else
        match MatchSteps(DropSpaces(b[1..]))
        case None => None
        case Some(g) => Some(RichMatch(pct, g.0, g.1, g.2, g.3))
  }

  /** re.search with the rich pattern: the match at the leftmost position where there is one. */
  function SearchRich(s: string): (r: Option<RichMatch>)
    ensures r.Some? ==> r.value.percent != [] && AllDigits(r.value.percent)
    ensures r.Some? ==> r.value.current != [] && AllDigits(r.value.current)
    ensures r.Some? ==> r.value.total != [] && AllDigits(r.value.total)
    ensures r.Some? ==> HasPercentRun(s) && '|' in s
    decreases |s|
  {
    var m := MatchRich(s);
    if m.Some? || s == [] then m
    else
      var r := SearchRich(s[1..]);
      PercentRunFromTail(s);
      r
  }

  /** What the tail of s contains, s contains. */
  lemma PercentRunFromTail(s: string)
    requires s != []
    ensures HasPercentRun(s[1..]) ==> HasPercentRun(s)
    ensures '|' in s[1..] ==> '|' in s
  {
    if HasPercentRun(s[1..]) {
      var k :| 1 <= k < |s[1..]| && IsDigit(s[1..][k - 1]) && s[1..][k] == '%';
      assert IsDigit(s[k]) && s[k + 1] == '%';
    }
  }

  /** re.search with the simple pattern: the digits of the leftmost run followed by '%'. */
  function SearchPercent(s: string): (r: Option<string>)
    ensures r.Some? ==> r.value != [] && AllDigits(r.value)
    ensures r.None? <==> !HasPercentRun(s)
    decreases |s|
  {
    var d := TakeDigits(s);
    if d != [] && |d| < |s| && s[|d|] == '%' then
      assert IsDigit(s[|d| - 1]);
      Some(d)
    else if s == [] then None
    else
      var r := SearchPercent(s[1..]);
      assert !(|s| > 1 && IsDigit(s[0]) && s[1] == '%') by {
        if |s| > 1 && !IsDigit(s[1]) {
          TakeDigitsBound(s, 1);
        }
      }
      assert HasPercentRun(s) ==> HasPercentRun(s[1..]) by {
        if HasPercentRun(s) {
          var k :| 1 <= k < |s| && IsDigit(s[k - 1]) && s[k] == '%';
          assert k >= 2;
          assert IsDigit(s[1..][k - 2]) && s[1..][k - 1] == '%';
        }
      }
      PercentRunFromTail(s);
      r
  }

  /** Seconds in a tqdm time string: "M:S", "H:M:S", or a plain number with trailing 's'
      characters removed; anything that int()/float() would reject gives 0. */
  function ParseTime(timeStr: string): real {
    var parts := Split(timeStr, ':');
    if ':' in timeStr && (|parts| == 2 || |parts| == 3) then ClockSeconds(parts)
    else FloatOrZero(TrimRightChar(timeStr, 's'))
  }

  /** int(m) * 60 + int(s), or int(h) * 3600 + int(m) * 60 + int(s); 0 when a part is not an int. */
  function ClockSeconds(parts: seq<string>): real
    requires |parts| == 2 || |parts| == 3
  {
    if |parts| == 2 then
      match (ParseInt(parts[0]), ParseInt(parts[1]))
      case (Some(m), Some(sec)) => (m * 60 + sec) as real
      case _ => 0.0
    else
      match (ParseInt(parts[0]), ParseInt(parts[1]), ParseInt(parts[2]))
      case (Some(h), Some(m), Some(sec)) => (h * 3600 + m * 60 + sec) as real
      case _ => 0.0
  }

  function FloatOrZero(s: string): real {
    match ParseFloat(s)
    case Some(v) => v
    case None => 0.0
  }

  /** parse_tqdm_line: the stripped line, None when blank; the rich pattern first, then the
      bare percentage. */
  function ParseTqdmLine(line: string): (r: Option<ProgressInfo>)
    ensures r.Some? ==> r.value.description == Strip(line) && r.value.rate.None?
    ensures r.Some? ==> r.value.percentage >= 0.0 && r.value.currentStep >= 0 && r.value.totalSteps >= 0
  {
    var t := Strip(line);
    if t == [] then None
    else
      match SearchRich(t)
      case Some(g) =>
        Some(ProgressInfo(DigitsValue(g.percent) as real, DigitsValue(g.current), DigitsValue(g.total),
                          None, Some(g.eta), t, ParseTime(g.elapsed)))
      case None =>
        match SearchPercent(t)
        case Some(d) => Some(ProgressInfo(DigitsValue(d) as real, 0, 0, None, None, t, 0.0))
        case None => None
  }

  //
  // Properties of the parser.
  //

  /** Stripping does not create or destroy a digit followed by '%'. */
  lemma PercentRunSurvivesStrip(line: string)
    ensures HasPercentRun(Strip(line)) <==> HasPercentRun(line)
  {
    if HasPercentRun(line) {
      var k :| 1 <= k < |line| && IsDigit(line[k - 1]) && line[k] == '%';
      StripFrom(line, k - 1);
      StripFrom(line, k);
      var j := k - StripStart(line);
      assert 1 <= j < |Strip(line)| && IsDigit(Strip(line)[j - 1]) && Strip(line)[j] == '%';
    }
    if HasPercentRun(Strip(line)) {
      PercentRunFromStrip(line);
    }
  }

  lemma PercentRunFromStrip(line: string)
    requires HasPercentRun(Strip(line))
    ensures HasPercentRun(line)
  {
    var t := Strip(line);
    var k :| 1 <= k < |t| && IsDigit(t[k - 1]) && t[k] == '%';
    StripAt(line, k - 1);
    StripAt(line, k);
    var j := StripStart(line) + k;
    assert 1 <= j < |line| && IsDigit(line[j - 1]) && line[j] == '%';
  }

  /** A line yields progress exactly when it contains a digit immediately followed by '%';
      in particular a blank line never does. */
  lemma ParseNoneIff(line: string)
    ensures ParseTqdmLine(line).None? <==> !HasPercentRun(line)
  {
    PercentRunSurvivesStrip(line);
  }

  /** Without a '|' the rich pattern cannot match: the result comes from the bare percentage,
      with no steps, no eta and no elapsed time. */
  lemma FallbackHasNoSteps(line: string)
    requires '|' !in line
    ensures ParseTqdmLine(line).Some? ==>
      var p := ParseTqdmLine(line).value;
      p.currentStep == 0 && p.totalSteps == 0 && p.eta.None? && p.elapsedTime == 0.0
  {
    StripIndices(line);
  }

  /** The bare percentage is the digit run before the first '%' that follows a digit. */
  lemma {:induction false} SearchPercentFirst(pre: string, d: string, post: string)
    requires d != [] && AllDigits(d)
    requires !HasPercentRun(pre) && (pre == [] || !IsDigit(pre[|pre| - 1]))
    ensures SearchPercent(pre + d + "%" + post) == Some(d)
    decreases |pre|
  {
    var rest := d + "%" + post;
    var s := pre + rest;
    ConcatAssoc(pre, d, "%", post);
    if pre == [] {
      assert s == d + ("%" + post);
      TakeDigitsConcat(d, "%" + post);
      assert s[|d|] == '%';
    } else {
      var t := TakeDigits(s);
      assert s[|pre| - 1] == pre[|pre| - 1];
      TakeDigitsBound(s, |pre| - 1);
      if t != [] {
        assert t[|t| - 1] == s[|t| - 1] == pre[|t| - 1];
        assert s[|t|] == pre[|t|];
        assert pre[|t|] != '%';
      }
      assert !HasPercentRun(pre[1..]) by {
        forall k | 1 <= k < |pre[1..]| && IsDigit(pre[1..][k - 1])
          ensures pre[1..][k] != '%'
        {
          assert pre[1..][k - 1] == pre[k] && pre[1..][k] == pre[k + 1];
        }
      }
      assert s[1..] == pre[1..] + rest;
      SearchPercentSkip(s);
      SearchPercentFirst(pre[1..], d, post);
      ConcatAssoc(pre[1..], d, "%", post);
    }
  }

  lemma ConcatAssoc(a: string, b: string, c: string, e: string)
    ensures a + b + c + e == a + (b + c + e)
  {
  }

  lemma SearchPercentSkip(s: string)
    requires s != []
    requires var t := TakeDigits(s); !(t != [] && |t| < |s| && s[|t|] == '%')
    ensures SearchPercent(s) == SearchPercent(s[1..])
  {
  }

  /** The digit run stops at or before the first non-digit. */
  lemma {:induction false} TakeDigitsBound(s: string, k: nat)
    requires k < |s| && !IsDigit(s[k])
    ensures |TakeDigits(s)| <= k
    decreases k
  {
    if k > 0 && IsDigit(s[0]) {
      TakeDigitsBound(s[1..], k - 1);
    }
  }

  lemma {:induction false} TakeDigitsConcat(d: string, r: string)
    requires AllDigits(d)
    requires r == [] || !IsDigit(r[0])
    ensures TakeDigits(d + r) == d
    decreases |d|
  {
    if d != [] {
      assert (d + r)[1..] == d[1..] + r;
      TakeDigitsConcat(d[1..], r);
    } else {
      assert d + r == r;
    }
  }

  lemma {:induction false} DropBarGlyphsConcat(g: string, r: string)
    requires forall i :: 0 <= i < |g| ==> IsBarGlyph(g[i])
    requires r == [] || !IsBarGlyph(r[0])
    ensures DropBarGlyphs(g + r) == r
    decreases |g|
  {
    if g != [] {
      assert (g + r)[1..] == g[1..] + r;
      DropBarGlyphsConcat(g[1..], r);
    } else {
      assert g + r == r;
    }
  }

  lemma {:induction false} DropSpacesConcat(w: string, r: string)
    requires forall i :: 0 <= i < |w| ==> IsSpace(w[i])
    requires r == [] || !IsSpace(r[0])
    ensures DropSpaces(w + r) == r
    decreases |w|
  {
    if w != [] {
      assert (w + r)[1..] == w[1..] + r;
      DropSpacesConcat(w[1..], r);
      assert StripStart(w + r) == 1 + StripStart(w[1..] + r);
    } else {
      assert w + r == r;
    }
  }

  lemma {:induction false} TakeUntilCloseConcat(b: string, r: string)
    requires ']' !in b && r != [] && r[0] == ']'
    ensures TakeUntilClose(b + r) == b
    decreases |b|
  {
    if b != [] {
      assert (b + r)[1..] == b[1..] + r;
      TakeUntilCloseConcat(b[1..], r);
    } else {
      assert b + r == r;
    }
  }

  lemma {:induction false} LastCommaAt(t: string, j: int, k: nat)
    requires j < |t| && 1 <= k <= j && t[k] == ','
    requires forall i :: k < i <= j ==> t[i] != ','
    ensures LastComma(t, j) == Some(k)
    decreases j
  {
    if j > k {
      LastCommaAt(t, j - 1, k);
    }
  }

  lemma SplitEtaOf(eta: string, tail: string)
    requires eta != [] && tail != [] && ',' !in tail
    ensures SplitEta(eta + "," + tail) == Some(eta)
  {
    var t := eta + "," + tail;
    forall i | |eta| < i <= |t| - 2
      ensures t[i] != ','
    {
      assert t[i] == tail[i - |eta| - 1];
    }
    LastCommaAt(t, |t| - 2, |eta|);
    assert t[..|eta|] == eta;
  }

  lemma {:induction false} LastLessThanAt(body: string, i: int, k: nat)
    requires i < |body| && 1 <= k <= i && body[k] == '<' && SplitEta(body[k + 1..]).Some?
    requires forall m :: k < m <= i ==> body[m] != '<'
    ensures LastLessThan(body, i) == Some(k)
    decreases i
  {
    if i > k {
      LastLessThanAt(body, i - 1, k);
    }
  }

  /** The bracket contents "elapsed<eta,rate" split back into elapsed and eta, whenever eta and
      the rate hold no '<' and the rate no ','. */
  lemma SplitTimingOf(elapsed: string, eta: string, tail: string)
    requires elapsed != [] && eta != [] && tail != []
    requires '<' !in eta && '<' !in tail && ',' !in tail
    ensures SplitTiming(elapsed + "<" + eta + "," + tail) == Some((elapsed, eta))
  {
    var body := elapsed + "<" + eta + "," + tail;
    var k := |elapsed|;
    assert body[k + 1..] == eta + "," + tail;
    SplitEtaOf(eta, tail);
    forall m | k < m <= |body| - 1
      ensures body[m] != '<'
    {
      if m <= k + |eta| {
        assert body[m] == eta[m - k - 1];
      } else if m > k + |eta| + 1 {
        assert body[m] == tail[m - k - |eta| - 2];
      }
    }
    LastLessThanAt(body, |body| - 1, k);
    assert body[..k] == elapsed;
    assert SplitEta(body[k + 1..]) == Some(eta);
    SplitTimingAt(body, k, elapsed, eta);
  }

  lemma SplitTimingAt(body: string, k: nat, elapsed: string, eta: string)
    requires k < |body| && LastLessThan(body, |body| - 1) == Some(k)
    requires body[..k] == elapsed && SplitEta(body[k + 1..]) == Some(eta)
    ensures SplitTiming(body) == Some((elapsed, eta))
  {
    var m := LastLessThan(body, |body| - 1);
    assert body != [] && m.Some? && m.value == k;
    assert body[m.value + 1..] == body[k + 1..];
  }

  /** The line tqdm writes, "45%|███ | 12/30 [00:12<00:18, 2.50it/s]" for example:
      percent, '%|', bar, '|', spaces, current '/' total, spaces, '[' elapsed '<' eta ',' rate ']'. */
  function TqdmLine(pct: string, bar: string, ws1: string, cur: string, tot: string, ws2: string,
                    elapsed: string, eta: string, rate: string): string
  {
    pct + "%|" + bar + "|" + ws1 + (cur + "/" + tot + ws2 + ("[" + (elapsed + "<" + eta + "," + rate) + "]"))
  }

  /** The fields of a line that the rich pattern reads back unchanged. */
  predicate WellFormedFields(pct: string, bar: string, ws1: string, cur: string, tot: string, ws2: string,
                             elapsed: string, eta: string, rate: string)
  {
    && pct != [] && AllDigits(pct) && cur != [] && AllDigits(cur) && tot != [] && AllDigits(tot)
    && (forall i :: 0 <= i < |bar| ==> IsBarGlyph(bar[i]))
    && (forall i :: 0 <= i < |ws1| ==> IsSpace(ws1[i]))
    && (forall i :: 0 <= i < |ws2| ==> IsSpace(ws2[i]))
    && elapsed != [] && eta != [] && rate != []
    && ']' !in elapsed && ']' !in eta && ']' !in rate
    && '<' !in eta && '<' !in rate && ',' !in rate
  }

  lemma NoCloseInTiming(elapsed: string, eta: string, rate: string)
    requires ']' !in elapsed && ']' !in eta && ']' !in rate
    ensures ']' !in elapsed + "<" + eta + "," + rate
  {
    var body := elapsed + "<" + eta + "," + rate;
    forall i | 0 <= i < |body|
      ensures body[i] != ']'
    {
      if i < |elapsed| {
        assert body[i] == elapsed[i];
      } else if |elapsed| < i <= |elapsed| + |eta| {
        assert body[i] == eta[i - |elapsed| - 1];
      } else if i > |elapsed| + |eta| + 1 {
        assert body[i] == rate[i - |elapsed| - |eta| - 2];
      }
    }
  }

  /** The bracket "[elapsed<eta,rate]" gives back elapsed and eta. */
  lemma MatchBracketOf(elapsed: string, eta: string, rate: string)
    requires elapsed != [] && eta != [] && rate != []
    requires ']' !in elapsed && ']' !in eta && ']' !in rate
    requires '<' !in eta && '<' !in rate && ',' !in rate
    ensures MatchBracket("[" + (elapsed + "<" + eta + "," + rate) + "]") == Some((elapsed, eta))
  {
    var body := elapsed + "<" + eta + "," + rate;
    var e := "[" + body + "]";
    assert e[1..] == body + "]";
    NoCloseInTiming(elapsed, eta, rate);
    TakeUntilCloseConcat(body, "]");
    SplitTimingOf(elapsed, eta, rate);
  }

  /** "cur/tot" then spaces then a bracket gives back both step counts and the bracket's fields. */
  lemma MatchStepsOf(cur: string, tot: string, ws2: string, e: string)
    requires cur != [] && AllDigits(cur) && tot != [] && AllDigits(tot)
    requires forall i :: 0 <= i < |ws2| ==> IsSpace(ws2[i])
    requires e != [] && e[0] == '['
    ensures MatchBracket(e).Some? ==>
      MatchSteps(cur + ("/" + (tot + (ws2 + e)))) == Some((cur, tot, MatchBracket(e).value.0, MatchBracket(e).value.1))
  {
    var r := ws2 + e;
    var d := "/" + (tot + r);
    var c := cur + d;
    assert TakeDigits(c) == cur by {
      TakeDigitsConcat(cur, d);
    }
    assert c[|cur|..] == d;
    assert c[|cur| + 1..] == tot + r;
    assert TakeDigits(tot + r) == tot by {
      assert r[0] == '[' || IsSpace(r[0]) by {
        if ws2 != [] {
          assert r[0] == ws2[0];
        }
      }
      TakeDigitsConcat(tot, r);
    }
    assert DropSpaces((tot + r)[|tot|..]) == e by {
      assert (tot + r)[|tot|..] == r;
      DropSpacesConcat(ws2, e);
    }
    MatchStepsAt(c, cur, tot, e);
  }

  lemma MatchStepsAt(c: string, cur: string, tot: string, e: string)
    requires cur != [] && TakeDigits(c) == cur && |c| > |cur| && c[|cur|] == '/'
    requires tot != [] && TakeDigits(c[|cur| + 1..]) == tot && DropSpaces(c[|cur| + 1..][|tot|..]) == e
    ensures MatchBracket(e).Some? ==>
      MatchSteps(c) == Some((cur, tot, MatchBracket(e).value.0, MatchBracket(e).value.1))
  {
    assert c[|cur|..][1..] == c[|cur| + 1..];
  }

  /** "pct%|bar|" then spaces then the steps part gives back the percentage and the steps. */
  lemma MatchRichOf(pct: string, bar: string, ws1: string, c: string)
    requires pct != [] && AllDigits(pct)
    requires forall i :: 0 <= i < |bar| ==> IsBarGlyph(bar[i])
    requires forall i :: 0 <= i < |ws1| ==> IsSpace(ws1[i])
    requires c != [] && IsDigit(c[0])
    ensures MatchSteps(c).Some? ==>
      var g := MatchSteps(c).value;
      MatchRich(pct + ("%|" + (bar + ("|" + (ws1 + c))))) == Some(RichMatch(pct, g.0, g.1, g.2, g.3))
  {
    var r2 := "|" + (ws1 + c);
    RichHead(pct, bar, r2);
    assert DropSpaces(r2[1..]) == c by {
      assert r2[1..] == ws1 + c;
      DropSpacesConcat(ws1, c);
    }
    MatchRichAt(pct + ("%|" + (bar + r2)), pct, r2, c);
  }

  lemma RichHead(pct: string, bar: string, r2: string)
    requires pct != [] && AllDigits(pct)
    requires forall i :: 0 <= i < |bar| ==> IsBarGlyph(bar[i])
    requires r2 != [] && r2[0] == '|'
    ensures var s := pct + ("%|" + (bar + r2));
      && TakeDigits(s) == pct && |s| >= |pct| + 2 && s[|pct|] == '%' && s[|pct| + 1] == '|'
      && DropBarGlyphs(s[|pct| + 2..]) == r2
  {
    var r1 := bar + r2;
    var a := "%|" + r1;
    var s := pct + a;
    assert TakeDigits(s) == pct by {
      TakeDigitsConcat(pct, a);
    }
    assert s[|pct|..] == a;
    assert DropBarGlyphs(s[|pct| + 2..]) == r2 by {
      assert s[|pct| + 2..] == r1;
      DropBarGlyphsConcat(bar, r2);
    }
  }

  lemma MatchRichAt(s: string, pct: string, r2: string, c: string)
    requires pct != [] && TakeDigits(s) == pct && |s| >= |pct| + 2
    requires s[|pct|] == '%' && s[|pct| + 1] == '|'
    requires DropBarGlyphs(s[|pct| + 2..]) == r2 && r2 != [] && r2[0] == '|' && DropSpaces(r2[1..]) == c
    ensures MatchSteps(c).Some? ==>
      var g := MatchSteps(c).value;
      MatchRich(s) == Some(RichMatch(pct, g.0, g.1, g.2, g.3))
  {
    assert s[|pct|..][2..] == s[|pct| + 2..];
  }

  lemma Nest5(a: string, b: string, c: string, d: string, e: string)
    ensures a + b + c + d + e == a + (b + (c + (d + e)))
  {
  }

  lemma Nest6(a: string, b: string, c: string, d: string, e: string, f: string)
    ensures a + b + c + d + e + f == a + (b + (c + (d + (e + f))))
  {
    Nest5(b, c, d, e, f);
  }

  lemma TqdmLineEnds(head: string, c: string, e: string)
    requires head != [] && IsDigit(head[0])
    requires e != [] && e[|e| - 1] == ']' && |e| <= |c| && c[|c| - |e|..] == e
    ensures var l := head + c; !IsSpace(l[0]) && !IsSpace(l[|l| - 1])
  {
    var l := head + c;
    assert l[0] == head[0];
    assert l[|l| - 1] == c[|c| - 1] == e[|e| - 1];
  }

  /** A well-formed tqdm line parses to its percentage, steps, eta and elapsed seconds, with the
      whole line as description and no rate. */
  lemma ParseWellFormedLine(pct: string, bar: string, ws1: string, cur: string, tot: string, ws2: string,
                            elapsed: string, eta: string, rate: string)
    requires WellFormedFields(pct, bar, ws1, cur, tot, ws2, elapsed, eta, rate)
    ensures var line := TqdmLine(pct, bar, ws1, cur, tot, ws2, elapsed, eta, rate);
      ParseTqdmLine(line) == Some(ProgressInfo(DigitsValue(pct) as real, DigitsValue(cur), DigitsValue(tot),
                                               None, Some(eta), line, ParseTime(elapsed)))
  {
    var line := TqdmLine(pct, bar, ws1, cur, tot, ws2, elapsed, eta, rate);
    var e := "[" + (elapsed + "<" + eta + "," + rate) + "]";
    var c := cur + ("/" + (tot + (ws2 + e)));
    Nest5(cur, "/", tot, ws2, e);
    Nest6(pct, "%|", bar, "|", ws1, c);
    MatchBracketOf(elapsed, eta, rate);
    MatchStepsOf(cur, tot, ws2, e);
    assert c[0] == cur[0];
    MatchRichOf(pct, bar, ws1, c);
    assert c[|c| - |e|..] == e;
    TqdmLineEnds(pct + "%|" + bar + "|" + ws1, c, e);
    StripUnchanged(line);
  }

  /** "M:S" is read as minutes and seconds. */
  lemma ParseTimeMinutesSeconds(m: string, sec: string)
    requires m != [] && AllDigits(m) && sec != [] && AllDigits(sec)
    ensures ParseTime(m + ":" + sec) == (DigitsValue(m) * 60 + DigitsValue(sec)) as real
  {
    var s := m + ":" + sec;
    assert Split(s, ':') == [m, sec] by {
      assert s == m + [':'] + sec;
      NoColonInDigits(sec);
      SplitAfterPart(m, sec, ':');
      SplitNoSeparator(sec, ':');
    }
    assert ':' in s by {
      assert s[|m|] == ':';
    }
    ClockSecondsOfMinutes(m, sec);
  }

  lemma ClockSecondsOfMinutes(m: string, sec: string)
    requires m != [] && AllDigits(m) && sec != [] && AllDigits(sec)
    ensures ClockSeconds([m, sec]) == (DigitsValue(m) * 60 + DigitsValue(sec)) as real
  {
    ParseIntDigits(m);
    ParseIntDigits(sec);
  }

  /** "H:M:S" is read as hours, minutes and seconds. */
  lemma ParseTimeHoursMinutesSeconds(h: string, m: string, sec: string)
    requires h != [] && AllDigits(h) && m != [] && AllDigits(m) && sec != [] && AllDigits(sec)
    ensures ParseTime(h + ":" + m + ":" + sec) ==
      (DigitsValue(h) * 3600 + DigitsValue(m) * 60 + DigitsValue(sec)) as real
  {
    var s := h + ":" + m + ":" + sec;
    var r := m + ":" + sec;
    assert s == h + [':'] + r;
    assert r == m + [':'] + sec;
    assert s[|h|] == ':';
    NoColonInDigits(h);
    NoColonInDigits(m);
    NoColonInDigits(sec);
    SplitAfterPart(h, r, ':');
    SplitAfterPart(m, sec, ':');
    SplitNoSeparator(sec, ':');
    assert Split(r, ':') == [m, sec];
    assert Split(s, ':') == [h, m, sec];
    ClockSecondsOfDigits(h, m, sec);
  }

  lemma ClockSecondsOfDigits(h: string, m: string, sec: string)
    requires h != [] && AllDigits(h) && m != [] && AllDigits(m) && sec != [] && AllDigits(sec)
    ensures ClockSeconds([h, m, sec]) == (DigitsValue(h) * 3600 + DigitsValue(m) * 60 + DigitsValue(sec)) as real
  {
    ParseIntDigits(h);
    ParseIntDigits(m);
    ParseIntDigits(sec);
  }

  lemma NoColonInDigits(d: string)
    requires AllDigits(d)
    ensures ':' !in d && 's' !in d
  {
    forall i | 0 <= i < |d|
      ensures d[i] != ':' && d[i] != 's'
    {
      assert IsDigit(d[i]);
    }
  }

  /** A plain number of seconds, with or without a trailing 's', is read as that number. */
  lemma ParseTimeSeconds(d: string, unit: string)
    requires d != [] && AllDigits(d)
    requires unit == "" || unit == "s"
    ensures ParseTime(d + unit) == DigitsValue(d) as real
  {
    var s := d + unit;
    NoColonInDigits(d);
    assert ':' !in s;
    assert d[|d| - 1] != 's';
    assert TrimRightChar(s, 's') == d by {
      if unit == "s" {
        assert s[..|s| - 1] == d;
      } else {
        assert s == d;
      }
    }
    ParseFloatDigits(d);
  }

  lemma ParseFloatDigits(d: string)
    requires d != [] && AllDigits(d)
    ensures ParseFloat(d) == Some(DigitsValue(d) as real)
  {
    StripUnchanged(d);
    assert d[0] != '-' && d[0] != '+';
    TakeDigitsConcat(d, []);
    assert d + [] == d;
  }

  /** With more than two colons neither int() branch applies and float() fails: 0 seconds. */
  lemma ParseTimeTooManyParts(s: string)
    requires ':' in s && |Split(s, ':')| > 3
    ensures ParseTime(s) == 0.0
  {
    var t := TrimRightChar(s, 's');
    var i :| 0 <= i < |s| && s[i] == ':';
    assert i < |t|;
    assert t[i] == ':';
    ParseFloatRejects(t, ':');
  }

  /** The example line of the tqdm format: 45%, step 12 of 30, eta "00:18", 12 seconds elapsed. */
  lemma ParseExampleLine()
    ensures var p := ParseTqdmLine("45%|\U{2588}\U{2588}\U{2588} | 12/30 [00:12<00:18, 2.50it/s]");
      p.Some? && p.value.percentage == 45.0 && p.value.currentStep == 12 && p.value.totalSteps == 30
      && p.value.eta == Some("00:18") && p.value.elapsedTime == 12.0 && p.value.rate.None?
  {
    var bar := "\U{2588}\U{2588}\U{2588} ";
    ExampleText();
    ExampleWellFormed();
    ParseWellFormedLine("45", bar, " ", "12", "30", " ", "00:12", "00:18", " 2.50it/s");
    ExampleElapsed();
    ExampleDigits();
  }

  lemma ExampleText()
    ensures TqdmLine("45", "\U{2588}\U{2588}\U{2588} ", " ", "12", "30", " ", "00:12", "00:18", " 2.50it/s")
         == "45%|\U{2588}\U{2588}\U{2588} | 12/30 [00:12<00:18, 2.50it/s]"
  {
  }

  lemma ExampleWellFormed()
    ensures WellFormedFields("45", "\U{2588}\U{2588}\U{2588} ", " ", "12", "30", " ", "00:12", "00:18", " 2.50it/s")
  {
    var bar := "\U{2588}\U{2588}\U{2588} ";
    assert AllDigits("45") && AllDigits("12") && AllDigits("30");
    assert forall i :: 0 <= i < |bar| ==> IsBarGlyph(bar[i]);
  }

  lemma ExampleElapsed()
    ensures ParseTime("00:12") == 12.0
  {
    assert "00" + ":" + "12" == "00:12";
    assert AllDigits("00") && AllDigits("12");
    ParseTimeMinutesSeconds("00", "12");
    assert DigitsValue("12") == 12 by { assert "12"[..1] == "1"; }
    assert DigitsValue("00") == 0 by { assert "00"[..1] == "0"; }
  }

  lemma ExampleDigits()
    ensures DigitsValue("45") == 45 && DigitsValue("12") == 12 && DigitsValue("30") == 30
  {
    assert DigitsValue("45") == 45 by { assert "45"[..1] == "4"; }
    assert DigitsValue("12") == 12 by { assert "12"[..1] == "1"; }
    assert DigitsValue("30") == 30 by { assert "30"[..1] == "3"; }
  }
}
