/** The reservation sentinel that the reservation tool embeds in its output,
    `IMPORTANT: This reservation data includes: {...}`, and the two regular
    expressions that handle it, written out by hand:

    - extraction searches `IMPORTANT: This reservation data includes: ({.*})`
      and captures greedily up to the last `}` of the line;
    - scrubbing replaces every match of
      `\n*IMPORTANT: This reservation data includes: {.*?}\n*` with nothing,
      stopping at the first `}` and taking the newlines on either side.

    In both patterns `.` matches any character except a newline. */
module Sentinel {
  import opened Wrappers

  /** The sentinel prefix, `IMPORTANT: This reservation data includes: `. */
  const Prefix: string := "I" + PrefixTail

  /** The prefix after its first letter. */
  const PrefixTail: string := "MPORTANT: This reservation data includes: "

  /** The text `p` occurs in `s` at index `i`. */
  predicate OccursAt(s: string, i: nat, p: string) {
    i + |p| <= |s| && s[i..i + |p|] == p
  }

  /** The text `p` occurs somewhere in `s`. */
  predicate Occurs(s: string, p: string) {
    exists i :: 0 <= i <= |s| && OccursAt(s, i, p)
  }

  /** The sentinel prefix occurs in `s` at index `i`. */
  predicate PrefixAt(s: string, i: nat) {
    OccursAt(s, i, Prefix)
  }

  /** The sentinel prefix occurs somewhere in `s`. */
  predicate Mentions(s: string) {
    Occurs(s, Prefix)
  }

  /** No newline in `s[lo..hi]`. */
  predicate OneLine(s: string, lo: nat, hi: nat)
    requires lo <= hi <= |s|
  {
    forall k :: lo <= k < hi ==> s[k] != '\n'
  }

  // ---------------------------------------------------------------------------
  // Extraction: IMPORTANT: This reservation data includes: ({.*})
  // ---------------------------------------------------------------------------

  /** The first index at or after `k` holding a newline, or `|s|`. */
  function LineEnd(s: string, k: nat): (e: nat)
    requires k <= |s|
    ensures k <= e <= |s| && OneLine(s, k, e)
    ensures e < |s| ==> s[e] == '\n'
    decreases |s| - k
  {
    if k == |s| || s[k] == '\n' then k else LineEnd(s, k + 1)
  }

  /** The last index in `[lo, hi)` holding `}`, if any. */
  function LastClose(s: string, lo: nat, hi: nat): (j: Option<nat>)
    requires lo <= hi <= |s|
    ensures j.Some? ==> lo <= j.value < hi && s[j.value] == '}'
    ensures j.Some? ==> forall k :: j.value < k < hi ==> s[k] != '}'
    ensures j.None? ==> forall k :: lo <= k < hi ==> s[k] != '}'
    decreases hi - lo
  {
    if lo == hi then None
    else if s[hi - 1] == '}' then Some(hi - 1)
    else LastClose(s, lo, hi - 1)
  }

  /** The extraction pattern can match at `i`: the prefix, then `{`, then a
      `}` later on the same line. */
  predicate MatchableAt(s: string, i: nat) {
    && PrefixAt(s, i)
    && i + |Prefix| < |s|
    && s[i + |Prefix|] == '{'
    && exists j :: i + |Prefix| < j < |s| && s[j] == '}' && OneLine(s, i + |Prefix|, j)
  }

  /** `c` is the greedy capture of a match at `i`: it starts right after the
      prefix with `{`, ends with `}`, stays on one line, and no `}` follows it
      on that line. */
  predicate CapturedAt(s: string, i: nat, c: string) {
    && PrefixAt(s, i)
    && 2 <= |c|
    && i + |Prefix| + |c| <= |s|
    && s[i + |Prefix|..i + |Prefix| + |c|] == c
    && c[0] == '{' && c[|c| - 1] == '}'
    && '\n' !in c
    && forall k :: i + |Prefix| + |c| <= k < |s| && OneLine(s, i + |Prefix| + |c|, k) ==> s[k] != '}'
  }

  /** A capture of the extraction pattern: a one-line text from `{` to `}`. */
  predicate Braced(c: string) {
    2 <= |c| && c[0] == '{' && c[|c| - 1] == '}' && '\n' !in c
  }

  /** The match of the extraction pattern anchored at `i`, if any. */
  function CaptureAt(s: string, i: nat): (c: Option<string>)
    ensures c.Some? ==> Braced(c.value)
  {
    if PrefixAt(s, i) && i + |Prefix| < |s| && s[i + |Prefix|] == '{' then
      var open := i + |Prefix|;
      match LastClose(s, open + 1, LineEnd(s, open + 1))
      case Some(j) => Some(s[open..j + 1])
      case None => None
    else None
  }

  /** The pattern matches at `i` exactly when `CaptureAt` finds a capture,
      and that capture is the greedy one. */
  lemma CaptureAtSpec(s: string, i: nat)
    ensures CaptureAt(s, i).Some? <==> MatchableAt(s, i)
    ensures CaptureAt(s, i).Some? ==> CapturedAt(s, i, CaptureAt(s, i).value)
  {
  }

  /** `re.search` from index `i` on: the capture at the leftmost index where
      the pattern matches. */
  function SearchFrom(s: string, i: nat): (c: Option<string>)
    requires i <= |s|
    ensures c.Some? ==> Braced(c.value)
    decreases |s| - i
  {
    if CaptureAt(s, i).Some? then CaptureAt(s, i)
    else if i == |s| then None
    else SearchFrom(s, i + 1)
  }

  /** The search finds nothing exactly when the pattern matches nowhere from
      `i` on. */
  lemma {:induction false} SearchFromNone(s: string, i: nat)
    requires i <= |s|
    ensures SearchFrom(s, i).None? <==> forall k :: i <= k <= |s| ==> !MatchableAt(s, k)
    decreases |s| - i
  {
    CaptureAtSpec(s, i);
    if CaptureAt(s, i).None? && i < |s| {
      SearchFromNone(s, i + 1);
    }
  }

  /** A search that finds something returns the capture at the leftmost
      position where the pattern matches. */
  lemma {:induction false} SearchFromLeftmost(s: string, i: nat)
    requires i <= |s| && SearchFrom(s, i).Some?
    ensures exists k :: i <= k <= |s| && CapturedAt(s, k, SearchFrom(s, i).value) && forall m :: i <= m < k ==> !MatchableAt(s, m)
    decreases |s| - i
  {
    CaptureAtSpec(s, i);
    if CaptureAt(s, i).None? {
      SearchFromLeftmost(s, i + 1);
      var k :| i + 1 <= k <= |s| && CapturedAt(s, k, SearchFrom(s, i + 1).value) && forall m :: i + 1 <= m < k ==> !MatchableAt(s, m);
      assert forall m :: i <= m < k ==> !MatchableAt(s, m);
    } else {
      assert CapturedAt(s, i, SearchFrom(s, i).value);
    }
  }

  /** The reservation JSON the extraction pattern captures from `s`, if any. */
  function Extract(s: string): (c: Option<string>)
    ensures c.Some? ==> Braced(c.value)
  {
    SearchFrom(s, 0)
  }

  /** Extraction yields nothing exactly when the pattern matches nowhere in
      `s`; otherwise it yields the greedy capture of the leftmost match. */
  lemma ExtractSpec(s: string)
    ensures Extract(s).None? <==> forall k :: 0 <= k <= |s| ==> !MatchableAt(s, k)
    ensures Extract(s).Some? ==>
      exists k :: 0 <= k <= |s| && CapturedAt(s, k, Extract(s).value) && forall m :: 0 <= m < k ==> !MatchableAt(s, m)
  {
    SearchFromNone(s, 0);
    if Extract(s).Some? {
      SearchFromLeftmost(s, 0);
    }
  }

  /** Text that never mentions the sentinel yields no reservation JSON. */
  lemma ExtractUnmentioned(s: string)
    requires !Mentions(s)
    ensures Extract(s) == None
  {
    ExtractSpec(s);
  }

  // ---------------------------------------------------------------------------
  // Scrubbing: \n*IMPORTANT: This reservation data includes: {.*?}\n*
  // ---------------------------------------------------------------------------

  /** `k` newlines. */
  function Newlines(k: nat): (s: string)
    ensures |s| == k && forall i :: 0 <= i < k ==> s[i] == '\n'
  {
    seq(k, _ => '\n')
  }

  /** The number of newlines `s` starts with. */
  function LeadingNewlines(s: string): (n: nat)
    ensures n <= |s|
    ensures forall k :: 0 <= k < n ==> s[k] == '\n'
    ensures n < |s| ==> s[n] != '\n'
    decreases |s|
  {
    if s != [] && s[0] == '\n' then 1 + LeadingNewlines(s[1..]) else 0
  }

  /** The non-greedy `.*?}`: the first `}` at or after `k`, provided no
      newline comes before it. */
  function FirstClose(s: string, k: nat): (j: Option<nat>)
    requires k <= |s|
    ensures j.Some? ==> k <= j.value < |s| && s[j.value] == '}'
    ensures j.Some? ==> forall m :: k <= m < j.value ==> s[m] != '}' && s[m] != '\n'
    ensures j.None? ==> forall m :: k <= m < |s| && s[m] == '}' ==> !OneLine(s, k, m)
    decreases |s| - k
  {
    if k == |s| || s[k] == '\n' then None
    else if s[k] == '}' then Some(k)
    else FirstClose(s, k + 1)
  }

  /** The length of the match of `\n*` + `p` + `{.*?}\n*` at the start of
      `s`, if it matches there. The scrub proofs are carried out for any
      prefix text `p` of the sentinel's shape and then applied to the
      sentinel prefix itself. */
  function SpanAtWith(p: string, s: string): (e: Option<nat>)
    ensures e.Some? ==> 0 < e.value <= |s|
    ensures e.Some? ==> OccursAt(s, LeadingNewlines(s), p)
  {
    var n := LeadingNewlines(s);
    if OccursAt(s, n, p) && n + |p| < |s| && s[n + |p|] == '{' then
      match FirstClose(s, n + |p| + 1)
      case Some(j) => Some(j + 1 + LeadingNewlines(s[j + 1..]))
      case None => None
    else None
  }

  /** `re.sub` of the pattern with `''`: scanning left to right, every match
      is dropped and every other character is kept. */
  function ScrubWith(p: string, s: string): (r: string)
    ensures |r| <= |s|
    decreases |s|
  {
    if s == [] then []
    else
      match SpanAtWith(p, s)
      case Some(e) => ScrubWith(p, s[e..])
      case None => [s[0]] + ScrubWith(p, s[1..])
  }

  /** The length of the match of the scrub pattern at the start of `s`, if
      it matches there. */
  function SpanAt(s: string): (e: Option<nat>)
    ensures e.Some? ==> 0 < e.value <= |s| && PrefixAt(s, LeadingNewlines(s))
  {
    SpanAtWith(Prefix, s)
  }

  /** The scrub of `chat`: every match of
      `\n*IMPORTANT: This reservation data includes: {.*?}\n*` removed. */
  function Scrub(s: string): (r: string)
    ensures |r| <= |s|
  {
    ScrubWith(Prefix, s)
  }

  // ---------------------------------------------------------------------------
  // What scrubbing does
  // ---------------------------------------------------------------------------

  /** What the scrub proofs need of a prefix text: it starts with `I`, which
      does not occur again in it, and it holds no newline. */
  predicate Shaped(p: string) {
    p != [] && p[0] == 'I' && 'I' !in p[1..] && '\n' !in p
  }

  /** The sentinel prefix has that shape. */
  lemma PrefixShape()
    ensures Shaped(Prefix) && |Prefix| == 43
  {
    PrefixSplit();
    PrefixTailNoI();
    PrefixTailNoNewline();
  }

  lemma PrefixSplit()
    ensures Prefix[1..] == PrefixTail
  {
    assert ("I" + PrefixTail)[1..] == PrefixTail;
  }

  lemma PrefixTailNoI()
    ensures 'I' !in PrefixTail
  {
  }

  lemma PrefixTailNoNewline()
    ensures '\n' !in PrefixTail
  {
  }

  /** `t` starts the way a sentinel span does, with the prefix's `I` or a
      newline, neither of which occurs later in the prefix: it cannot supply
      the tail of a prefix that began before it. */
  predicate CannotContinue(t: string) {
    t == [] || t[0] == 'I' || t[0] == '\n'
  }

  /** Dropping the first character of a text in which `p` does not occur
      leaves one in which it does not occur either. */
  lemma UnmentionedTail(s: string, p: string)
    requires s != [] && !Occurs(s, p)
    ensures !Occurs(s[1..], p)
  {
    forall i | 0 <= i <= |s[1..]| ensures !OccursAt(s[1..], i, p) {
      assert !OccursAt(s, i + 1, p);
      if i + |p| <= |s[1..]| {
        assert s[1..][i..i + |p|] == s[i + 1..i + 1 + |p|];
      }
    }
  }

  /** A text in which `p` does not occur passes through unchanged. */
  lemma {:induction false} ScrubWithUnmentioned(p: string, s: string)
    requires !Occurs(s, p)
    ensures ScrubWith(p, s) == s
    decreases |s|
  {
    if s != [] {
      UnmentionedTail(s, p);
      ScrubWithUnmentioned(p, s[1..]);
    }
  }

  /** A reply without the sentinel prefix passes through scrubbing
      unchanged. */
  lemma ScrubUnmentioned(s: string)
    requires !Mentions(s)
    ensures Scrub(s) == s
  {
    ScrubWithUnmentioned(Prefix, s);
  }

  /** No match starts at the front of `a + t` when `p` does not occur in `a`,
      `a` does not end in a newline, and `t` cannot complete an occurrence of
      `p` begun in `a`. */
  lemma NoSpanBefore(p: string, a: string, t: string)
    requires Shaped(p)
    requires a != [] && !Occurs(a, p) && a[|a| - 1] != '\n'
    requires CannotContinue(t)
    ensures SpanAtWith(p, a + t).None?
  {
    var s := a + t;
    var n := LeadingNewlines(s);
    assert s[|a| - 1] == a[|a| - 1];
    assert n < |a|;
    if n + |p| <= |a| {
      assert s[n..n + |p|] == a[n..n + |p|];
      assert !OccursAt(a, n, p);
    } else if n + |p| <= |s| {
      assert s[n..n + |p|][|a| - n] == t[0];
      assert p[|a| - n] == p[1..][|a| - n - 1];
      assert p[1..][|a| - n - 1] != t[0];
      assert s[n..n + |p|] != p;
    }
    assert !OccursAt(s, n, p);
  }

  /** Where no match starts, scrubbing keeps the first character. */
  lemma ScrubStep(p: string, s: string)
    requires s != [] && SpanAtWith(p, s).None?
    ensures ScrubWith(p, s) == [s[0]] + ScrubWith(p, s[1..])
  {
  }

  /** Text in front in which `p` does not occur is kept as it is. */
  lemma {:induction false} ScrubAppend(p: string, a: string, t: string)
    requires Shaped(p)
    requires !Occurs(a, p) && (a == [] || a[|a| - 1] != '\n')
    requires CannotContinue(t)
    ensures ScrubWith(p, a + t) == a + ScrubWith(p, t)
    decreases |a|
  {
    if a == [] {
      assert a + t == t;
    } else {
      NoSpanBefore(p, a, t);
      ScrubStep(p, a + t);
      UnmentionedTail(a, p);
      ScrubAppend(p, a[1..], t);
      TailOfAppend(a, t);
      ConsLayout(a, t, ScrubWith(p, a + t), ScrubWith(p, a[1..] + t), ScrubWith(p, t));
    }
  }

  /** Dropping the first character of `a + t` drops it from `a`. */
  lemma TailOfAppend(a: string, t: string)
    requires a != []
    ensures (a + t)[1..] == a[1..] + t
  {
  }

  /** The sequence algebra behind one step of `ScrubAppend`. */
  lemma ConsLayout(a: string, t: string, whole: string, rest: string, tail: string)
    requires a != []
    requires whole == [(a + t)[0]] + rest && rest == a[1..] + tail
    ensures whole == a + tail
  {
    assert (a + t)[0] == a[0];
    assert a == [a[0]] + a[1..];
  }

  /** The newlines `Newlines(k) + b` starts with are exactly the `k`. */
  lemma LeadingNewlinesOf(k: nat, b: string)
    requires b == [] || b[0] != '\n'
    ensures LeadingNewlines(Newlines(k) + b) == k
  {
    var s := Newlines(k) + b;
    assert forall i :: 0 <= i < k ==> s[i] == '\n';
    assert k < |s| ==> s[k] == b[0];
  }

  /** A span of the pattern: newlines, `p`, a brace-delimited one-line body
      without `}`, and newlines. */
  function SpanOf(p: string, k: nat, body: string, m: nat): string {
    Newlines(k) + p + "{" + body + "}" + Newlines(m)
  }

  /** A sentinel span. */
  function Span(k: nat, body: string, m: nat): string {
    SpanOf(Prefix, k, body, m)
  }

  /** The non-greedy close of a one-line body without `}` is the `}` right
      after the body. */
  lemma FirstCloseAfterBody(s: string, from: nat, body: string)
    requires from + |body| < |s|
    requires s[from..from + |body|] == body && s[from + |body|] == '}'
    requires '}' !in body && '\n' !in body
    ensures FirstClose(s, from) == Some(from + |body|)
  {
    forall i | from <= i < from + |body| ensures s[i] != '}' && s[i] != '\n' {
      assert s[i] == body[i - from];
    }
  }

  /** Where the pieces of a span followed by `b` sit. */
  lemma SpanLayout(p: string, k: nat, body: string, m: nat, b: string)
    ensures var s := SpanOf(p, k, body, m) + b;
      var open := k + |p|;
      var close := open + 1 + |body|;
      && |SpanOf(p, k, body, m)| == close + 1 + m
      && close < |s|
      && s == Newlines(k) + s[k..]
      && s[k..open] == p && s[open] == '{'
      && s[open + 1..close] == body && s[close] == '}'
      && s[close + 1..] == Newlines(m) + b
  {
  }

  /** Reading `SpanAtWith` off the positions of its pieces. */
  lemma SpanAtOf(p: string, s: string, k: nat, close: nat, m: nat)
    requires LeadingNewlines(s) == k && OccursAt(s, k, p)
    requires k + |p| < close < |s| && s[k + |p|] == '{'
    requires FirstClose(s, k + |p| + 1) == Some(close)
    requires LeadingNewlines(s[close + 1..]) == m
    ensures SpanAtWith(p, s) == Some(close + 1 + m)
  {
  }

  /** The leading newlines of a text that is `k` newlines and then a
      character other than a newline. */
  lemma LeadingNewlinesAt(s: string, k: nat)
    requires k < |s| && s == Newlines(k) + s[k..] && s[k] != '\n'
    ensures LeadingNewlines(s) == k
  {
    LeadingNewlinesOf(k, s[k..]);
  }

  /** The pattern matches a whole span, with the newlines on both sides,
      when no further newline follows. */
  lemma SpanMatches(p: string, k: nat, body: string, m: nat, b: string)
    requires Shaped(p)
    requires '}' !in body && '\n' !in body
    requires b == [] || b[0] != '\n'
    ensures SpanAtWith(p, SpanOf(p, k, body, m) + b) == Some(|SpanOf(p, k, body, m)|)
  {
    var close := k + |p| + 1 + |body|;
    SpanOpens(p, k, body, m, b);
    SpanLeading(p, k, body, m, b);
    SpanCloses(p, k, body, m, b);
    SpanTrailing(p, k, body, m, b);
    SpanAtOf(p, SpanOf(p, k, body, m) + b, k, close, m);
  }

  /** The prefix and the opening brace of a span sit after its leading
      newlines, and the span ends `m` characters after its closing brace. */
  lemma SpanOpens(p: string, k: nat, body: string, m: nat, b: string)
    ensures var s := SpanOf(p, k, body, m) + b;
      var close := k + |p| + 1 + |body|;
      && OccursAt(s, k, p) && s[k + |p|] == '{'
      && close < |s| && |SpanOf(p, k, body, m)| == close + 1 + m
  {
    SpanLayout(p, k, body, m, b);
  }

  /** A span begins with exactly its `k` leading newlines. */
  lemma SpanLeading(p: string, k: nat, body: string, m: nat, b: string)
    requires Shaped(p)
    ensures LeadingNewlines(SpanOf(p, k, body, m) + b) == k
  {
    var s := SpanOf(p, k, body, m) + b;
    SpanLayout(p, k, body, m, b);
    assert s[k] == s[k..k + |p|][0];
    LeadingNewlinesAt(s, k);
  }

  /** The lazy `.*?}` of a span stops at the span's own closing brace. */
  lemma SpanCloses(p: string, k: nat, body: string, m: nat, b: string)
    requires '}' !in body && '\n' !in body
    ensures var close := k + |p| + 1 + |body|;
      FirstClose(SpanOf(p, k, body, m) + b, k + |p| + 1) == Some(close)
  {
    SpanLayout(p, k, body, m, b);
    FirstCloseAfterBody(SpanOf(p, k, body, m) + b, k + |p| + 1, body);
  }

  /** After the closing brace come exactly the span's `m` trailing
      newlines. */
  lemma SpanTrailing(p: string, k: nat, body: string, m: nat, b: string)
    requires b == [] || b[0] != '\n'
    ensures var close := k + |p| + 1 + |body|;
      && close < |SpanOf(p, k, body, m) + b|
      && LeadingNewlines((SpanOf(p, k, body, m) + b)[close + 1..]) == m
  {
    SpanLayout(p, k, body, m, b);
    LeadingNewlinesOf(m, b);
  }

  /** Scrubbing skips a match that starts right after text kept as it is. */
  lemma ScrubAfterMatch(p: string, a: string, span: string, b: string)
    requires Shaped(p)
    requires !Occurs(a, p) && (a == [] || a[|a| - 1] != '\n')
    requires CannotContinue(span + b)
    requires SpanAtWith(p, span + b) == Some(|span|)
    ensures ScrubWith(p, a + span + b) == a + ScrubWith(p, b)
  {
    ScrubAppend(p, a, span + b);
    ScrubSkip(p, span + b, |span|);
    SkipLayout(a, span, b);
  }

  /** Where a match starts, scrubbing drops it. */
  lemma ScrubSkip(p: string, s: string, e: nat)
    requires SpanAtWith(p, s) == Some(e)
    ensures ScrubWith(p, s) == ScrubWith(p, s[e..])
  {
  }

  /** The sequence algebra behind `ScrubAfterMatch`. */
  lemma SkipLayout(a: string, span: string, b: string)
    ensures a + span + b == a + (span + b) && (span + b)[|span|..] == b
  {
  }

  /** A span starts with a newline or with the `I` of `p`, so it cannot
      complete an occurrence of `p` begun before it. */
  lemma SpanCannotContinue(p: string, k: nat, body: string, m: nat, b: string)
    requires Shaped(p)
    ensures CannotContinue(SpanOf(p, k, body, m) + b)
  {
    SpanLayout(p, k, body, m, b);
    var t := SpanOf(p, k, body, m) + b;
    if k == 0 {
      assert t[0] == t[0..|p|][0] == 'I';
    } else {
      assert t[0] == Newlines(k)[0];
    }
  }

  /** A span, together with its adjacent newlines, is removed, and the text
      before it, in which `p` does not occur, is kept. */
  lemma ScrubWithRemovesSpan(p: string, a: string, k: nat, body: string, m: nat, b: string)
    requires Shaped(p)
    requires !Occurs(a, p) && (a == [] || a[|a| - 1] != '\n')
    requires '}' !in body && '\n' !in body
    requires b == [] || b[0] != '\n'
    ensures ScrubWith(p, a + SpanOf(p, k, body, m) + b) == a + ScrubWith(p, b)
  {
    SpanCannotContinue(p, k, body, m, b);
    SpanMatches(p, k, body, m, b);
    ScrubAfterMatch(p, a, SpanOf(p, k, body, m), b);
  }

  /** A sentinel span, together with its adjacent newlines, is removed from
      a reply whose text before it does not mention the sentinel. */
  lemma ScrubRemovesSpan(a: string, k: nat, body: string, m: nat, b: string)
    requires !Mentions(a) && (a == [] || a[|a| - 1] != '\n')
    requires '}' !in body && '\n' !in body
    requires b == [] || b[0] != '\n'
    ensures Scrub(a + Span(k, body, m) + b) == a + Scrub(b)
  {
    PrefixShape();
    ScrubWithRemovesSpan(Prefix, a, k, body, m, b);
  }

  /** The sequence algebra behind `ScrubWithNotIdempotent`. */
  lemma SpliceLayout(p: string, i: nat)
    requires i <= |p|
    ensures SpanOf(p, 0, "", 0) == p + "{}"
    ensures p[..i] + SpanOf(p, 0, "", 0) + p[i..] + "{}" == p[..i] + (p + "{}") + (p[i..] + "{}")
    ensures p[..i] + (p[i..] + "{}") == p + "{}"
    ensures [] + SpanOf(p, 0, "", 0) + [] == p + "{}"
  {
    assert p[..i] + p[i..] == p;
  }

  /** Removing one span can splice the text on either side of it into a new
      one: split `p` after `i` characters and put a span in the cut. */
  lemma ScrubWithNotIdempotent(p: string, i: nat)
    requires Shaped(p) && 3 <= i < |p|
    ensures var x := p[..i] + SpanOf(p, 0, "", 0) + p[i..] + "{}";
      ScrubWith(p, x) == p + "{}" && ScrubWith(p, ScrubWith(p, x)) == []
  {
    SpliceLayout(p, i);
    var head := p[..i];
    var tail := p[i..] + "{}";
    assert head[i - 1] == p[i - 1] != '\n';
    ScrubWithRemovesSpan(p, head, 0, "", 0, tail);
    ScrubWithUnmentioned(p, tail);
    ScrubWithRemovesSpan(p, [], 0, "", 0, []);
  }

  /** Scrubbing is not idempotent: removing one span can splice the text on
      either side of it into a new sentinel. */
  lemma ScrubNotIdempotent()
    ensures var x := Prefix[..3] + Span(0, "", 0) + Prefix[3..] + "{}";
      Scrub(x) == Prefix + "{}" && Scrub(Scrub(x)) == []
  {
    PrefixShape();
    ScrubWithNotIdempotent(Prefix, 3);
  }

  /** The lazy match stops at the first `}`: a span carrying a nested object
      leaves the outer closing brace behind. */
  lemma ScrubWithNestedLeavesBrace(p: string, inner: string)
    requires Shaped(p) && 2 <= |p|
    requires '}' !in inner && '\n' !in inner
    ensures ScrubWith(p, p + "{{" + inner + "}}") == "}"
  {
    NestedLayout(p, inner);
    ScrubWithRemovesSpan(p, [], 0, "{" + inner, 0, "}");
    ScrubWithUnmentioned(p, "}");
  }

  /** The sequence algebra behind `ScrubWithNestedLeavesBrace`. */
  lemma NestedLayout(p: string, inner: string)
    ensures p + "{{" + inner + "}}" == [] + SpanOf(p, 0, "{" + inner, 0) + "}"
  {
    assert Newlines(0) == [];
  }

  /** The lazy scrub stops at the first `}`: when the sentinel carries a
      nested object, the closing brace of the outer object stays in the
      reply. */
  lemma ScrubNestedLeavesBrace(inner: string)
    requires '}' !in inner && '\n' !in inner
    ensures Scrub(Prefix + "{{" + inner + "}}") == "}"
  {
    PrefixShape();
    ScrubWithNestedLeavesBrace(Prefix, inner);
  }
}
