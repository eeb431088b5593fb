/**
 * The e-mail shape check shared by sign-up, sign-in and the password-reset
 * prompt: the regular expression `^[^\s@]+@[^\s@]+\.[^\s@]+$`, matched against
 * the whole input (no flags, so `$` is the end of the string).
 *
 * `IsValidEmail` runs the expression as a left-to-right automaton; `RegexMatch`
 * is what the expression means, written as a decomposition of the input; and
 * `ShapeOk` is the plain-words reading (one `@`, no white space, a local part,
 * a domain with an inner dot). The lemmas at the end prove the three agree.
 */
module Email {
  import opened JsString

  /** A character of the class `[^\s@]`. */
  predicate PartChar(c: char) {
    !IsWhite(c) && c != '@'
  }

  predicate AllPart(w: string) {
    forall k :: 0 <= k < |w| ==> PartChar(w[k])
  }

  /**
   * The meaning of the expression: `s` splits as local `@` d1 `.` d2 where the
   * three parts are non-empty runs of `[^\s@]`.
   */
  ghost predicate RegexMatch(s: string) {
    exists at, dot :: RegexSplit(s, at, dot)
  }

  ghost predicate RegexSplit(s: string, at: int, dot: int) {
    && 0 < at && at + 1 < dot && dot + 1 < |s|
    && s[at] == '@' && s[dot] == '.'
    && AllPart(s[..at]) && AllPart(s[at + 1..dot]) && AllPart(s[dot + 1..])
  }

  /** Where the automaton is after reading a prefix of the input. */
  datatype Phase =
    | Start     // nothing read
    | Local     // a non-empty local part
    | AfterAt   // the local part and `@`
    | Domain    // at least one domain character, no usable dot yet
    | AfterDot  // a domain character followed by `.`
    | Accept    // a dot with text on both sides: the input so far matches
    | Dead      // no extension of the input can match

  function Step(q: Phase, c: char): Phase {
    if IsWhite(c) then Dead
    else if c == '@' then (if q == Local then AfterAt else Dead)
    else match q
      case Start => Local
      case Local => Local
      case AfterAt => Domain
      case Domain => if c == '.' then AfterDot else Domain
      case AfterDot => Accept
      case Accept => Accept
      case Dead => Dead
  }

  function Run(q: Phase, w: string): Phase
    decreases |w|
  {
    if |w| == 0 then q else Run(Step(q, w[0]), w[1..])
  }

  /** `emailRegex.test(s)`: the automaton run from `Start` ends in `Accept`. */
  predicate IsValidEmail(s: string): (ok: bool)
    ensures ok <==> RegexMatch(s)
  {
    AutomatonMatchesRegex(s);
    Run(Start, s) == Accept
  }

  // ---------------------------------------------------------------------------
  // What each phase still accepts, and the proof that the automaton follows it.

  /** `w` has a `.` at index `from` or later with at least one character after it. */
  ghost predicate DotInside(w: string, from: nat) {
    exists k :: from <= k && k + 1 < |w| && w[k] == '.'
  }

  /** `w` is `x @ y` with `x` in `[^\s@]*` (of length `at`) and `y` in `[^\s@]+\.[^\s@]+`. */
  ghost predicate AtSplit(w: string, at: int) {
    && 0 <= at < |w| && w[at] == '@'
    && AllPart(w[..at]) && AllPart(w[at + 1..]) && DotInside(w[at + 1..], 1)
  }

  /** The inputs that take phase `q` to `Accept`. */
  ghost predicate Accepts(q: Phase, w: string) {
    match q
    case Start => exists at :: 0 < at && AtSplit(w, at)
    case Local => exists at :: AtSplit(w, at)
    case AfterAt => AllPart(w) && DotInside(w, 1)
    case Domain => AllPart(w) && DotInside(w, 0)
    case AfterDot => |w| > 0 && AllPart(w)
    case Accept => AllPart(w)
    case Dead => false
  }

  lemma AllPartCons(w: string)
    requires |w| > 0
    ensures AllPart(w) <==> PartChar(w[0]) && AllPart(w[1..])
  {
  }

  lemma DotInsideCons(w: string, from: nat)
    requires |w| > 0 && from >= 1
    ensures DotInside(w, from) <==> DotInside(w[1..], from - 1)
  {
  }

  /** Reading a part character in phase `Start` or `Local` moves the `@` one place left. */
  lemma AtSplitCons(w: string, at: int)
    requires |w| > 0 && PartChar(w[0]) && at >= 1
    ensures AtSplit(w, at) <==> AtSplit(w[1..], at - 1)
  {
    if 0 <= at < |w| {
      assert w[1..][at - 1] == w[at];
      assert w[1..][at..] == w[at + 1..];
      assert w[..at] == [w[0]] + w[1..][..at - 1];
      AllPartCons(w[..at]);
      assert w[..at][1..] == w[1..][..at - 1];
    }
  }

  lemma LocalShift(w: string)
    requires |w| > 0 && PartChar(w[0])
    ensures (exists at :: 0 < at && AtSplit(w, at)) <==> (exists at :: AtSplit(w[1..], at))
    ensures (exists at :: AtSplit(w, at)) <==> (exists at :: AtSplit(w[1..], at))
  {
    if exists at :: AtSplit(w, at) {
      var at :| AtSplit(w, at);
      assert at != 0;
      AtSplitCons(w, at);
    }
    if exists at :: AtSplit(w[1..], at) {
      var at :| AtSplit(w[1..], at);
      AtSplitCons(w, at + 1);
    }
  }

  lemma AcceptsNeedsPart(q: Phase, w: string)
    requires |w| > 0 && Accepts(q, w) && q != Local
    ensures PartChar(w[0])
  {
  }

  lemma StepFollowsAccepts(q: Phase, w: string)
    requires |w| > 0
    ensures Accepts(q, w) <==> Accepts(Step(q, w[0]), w[1..])
  {
    var c := w[0];
    if !PartChar(c) {
      if Accepts(q, w) {
        if q == Local {
          var at :| AtSplit(w, at);
        } else {
          AcceptsNeedsPart(q, w);
        }
      }
      if q == Local && c == '@' {
        assert w[1..] == w[0 + 1..];
        if Accepts(AfterAt, w[1..]) { assert AtSplit(w, 0); }
        if Accepts(Local, w) {
          var at :| AtSplit(w, at);
          assert at == 0;
        }
      }
    } else {
      AllPartCons(w);
      match q
      case Start => LocalShift(w);
      case Local => LocalShift(w);
      case AfterAt => DotInsideCons(w, 1);
      case Domain =>
        if c == '.' {
          if |w| > 1 { assert DotInside(w, 0) by { assert w[0] == '.'; } }
          if DotInside(w, 0) { assert |w[1..]| > 0; }
        } else {
          if DotInside(w, 0) {
            var k :| 0 <= k && k + 1 < |w| && w[k] == '.';
            assert k != 0;
          }
          DotInsideCons(w, 1);
          if DotInside(w, 1) {
            var k :| 1 <= k && k + 1 < |w| && w[k] == '.';
          }
        }
      case AfterDot =>
      case Accept =>
      case Dead =>
    }
  }

  lemma {:induction false} RunFollowsAccepts(q: Phase, w: string)
    ensures Run(q, w) == Accept <==> Accepts(q, w)
    decreases |w|
  {
    if |w| == 0 {
      match q
      case Start =>
      case Local =>
      case AfterAt =>
      case Domain =>
      case AfterDot =>
      case Accept =>
      case Dead =>
    } else {
      StepFollowsAccepts(q, w);
      RunFollowsAccepts(Step(q, w[0]), w[1..]);
    }
  }

  /** Splitting a run of part characters around an inner `.`. */
  lemma AllPartAroundDot(w: string, k: int)
    requires 0 <= k < |w| && w[k] == '.'
    ensures AllPart(w) <==> AllPart(w[..k]) && AllPart(w[k + 1..])
  {
  }

  /** The automaton accepts exactly the strings the regular expression matches. */
  lemma AutomatonMatchesRegex(s: string)
    ensures Run(Start, s) == Accept <==> RegexMatch(s)
  {
    RunFollowsAccepts(Start, s);
    if RegexMatch(s) {
      var at, dot :| RegexSplit(s, at, dot);
      var d := s[at + 1..];
      assert d[dot - at - 1] == '.';
      assert s[at + 1..dot] == d[..dot - at - 1] && s[dot + 1..] == d[dot - at..];
      AllPartAroundDot(d, dot - at - 1);
      assert AtSplit(s, at);
    }
    if Accepts(Start, s) {
      var at :| 0 < at && AtSplit(s, at);
      var d := s[at + 1..];
      var k :| 1 <= k && k + 1 < |d| && d[k] == '.';
      AllPartAroundDot(d, k);
      assert s[at + 1..at + 1 + k] == d[..k] && s[at + 1 + k + 1..] == d[k + 1..];
      assert RegexSplit(s, at, at + 1 + k);
    }
  }

  // ---------------------------------------------------------------------------
  // The plain-words reading of the expression.

  function Count(s: string, c: char): (n: nat)
    ensures n <= |s|
    ensures n == 0 <==> c !in s
  {
    if |s| == 0 then 0
    else
      assert s[0] in s;
      assert forall x :: x in s[1..] ==> x in s;
      assert forall x :: x in s && x != s[0] ==> x in s[1..] by {
        forall x | x in s && x != s[0] ensures x in s[1..] {
          var i :| 0 <= i < |s| && s[i] == x;
          assert s[1..][i - 1] == x;
        }
      }
      (if s[0] == c then 1 else 0) + Count(s[1..], c)
  }

  lemma {:induction false} CountAppend(a: string, b: string, c: char)
    ensures Count(a + b, c) == Count(a, c) + Count(b, c)
  {
    if |a| > 0 {
      assert (a + b)[1..] == a[1..] + b;
      CountAppend(a[1..], b, c);
    } else {
      assert a + b == b;
    }
  }

  /** A domain with a `.` that has text before and after it. */
  ghost predicate InnerDot(d: string) {
    DotInside(d, 1)
  }

  /**
   * Exactly one `@`, no white space, a non-empty local part before the `@`,
   * and a domain after it with an inner dot.
   */
  ghost predicate ShapeOk(s: string) {
    && Count(s, '@') == 1
    && NoWhite(s)
    && exists at :: 0 < at < |s| && s[at] == '@' && InnerDot(s[at + 1..])
  }

  lemma NoAtIsAllPart(w: string)
    requires NoWhite(w) && '@' !in w
    ensures AllPart(w)
  {
  }

  lemma AllPartHasNoAt(w: string)
    requires AllPart(w)
    ensures '@' !in w
  {
  }

  lemma RegexToShape(s: string)
    requires RegexMatch(s)
    ensures ShapeOk(s)
  {
    var at, dot :| RegexSplit(s, at, dot);
    var d := s[at + 1..];
    assert d[..dot - at - 1] == s[at + 1..dot] && d[dot - at..] == s[dot + 1..];
    AllPartAroundDot(d, dot - at - 1);
    assert s == s[..at] + [s[at]] + d;
    AllPartHasNoAt(s[..at]);
    AllPartHasNoAt(d);
    CountAppend(s[..at] + [s[at]], d, '@');
    CountAppend(s[..at], [s[at]], '@');
    forall k | 0 <= k < |s| ensures !IsWhite(s[k]) {
      if k < at { assert s[..at][k] == s[k]; }
      else if k > at { assert d[k - at - 1] == s[k]; }
    }
    assert d[dot - at - 1] == '.';
    assert InnerDot(d);
  }

  /** With a single `@` at index `at`, neither side of it holds another. */
  lemma OnlyAt(s: string, at: int)
    requires 0 <= at < |s| && s[at] == '@' && Count(s, '@') == 1
    ensures '@' !in s[..at] && '@' !in s[at + 1..]
  {
    assert s == s[..at] + [s[at]] + s[at + 1..];
    CountAppend(s[..at] + [s[at]], s[at + 1..], '@');
    CountAppend(s[..at], [s[at]], '@');
    assert Count([s[at]], '@') == 1;
  }

  lemma ShapeToRegex(s: string)
    requires ShapeOk(s)
    ensures RegexMatch(s)
  {
    var at :| 0 < at < |s| && s[at] == '@' && InnerDot(s[at + 1..]);
    var d := s[at + 1..];
    OnlyAt(s, at);
    forall k | 0 <= k < at ensures !IsWhite(s[..at][k]) { assert s[..at][k] == s[k]; }
    forall k | 0 <= k < |d| ensures !IsWhite(d[k]) { assert d[k] == s[at + 1 + k]; }
    NoAtIsAllPart(s[..at]);
    NoAtIsAllPart(d);
    var k :| 1 <= k && k + 1 < |d| && d[k] == '.';
    AllPartAroundDot(d, k);
    assert s[at + 1..at + 1 + k] == d[..k] && s[at + 1 + k + 1..] == d[k + 1..];
    assert RegexSplit(s, at, at + 1 + k);
  }

  /** The regular expression accepts exactly the strings of the plain-words shape. */
  lemma RegexIsShape(s: string)
    ensures RegexMatch(s) <==> ShapeOk(s)
  {
    if RegexMatch(s) { RegexToShape(s); }
    if ShapeOk(s) { ShapeToRegex(s); }
  }

  /** The e-mail check, read in plain words. */
  lemma EmailShape(s: string)
    ensures IsValidEmail(s) <==> ShapeOk(s)
  {
    RegexIsShape(s);
  }
}
