/**
 * The two JSONP envelope regexes: /matches_\d+\((.*)\)/s for a day's match
 * list and /detail\((.*)\)/ for a room. String.prototype.match without the
 * g flag reports the leftmost position where the pattern matches; at that
 * position \d+ takes the whole digit run and the greedy (.*) stretches to
 * the last ')' that '.' can reach: anywhere under the s (dotAll) flag, up to
 * the next line terminator without it.
 */
module Envelope {
  import opened Options
  import opened Decimal

  datatype Pattern =
    | MatchesCall   // /matches_\d+\((.*)\)/s
    | DetailCall    // /detail\((.*)\)/

  const MatchesName := "matches_"
  const DetailName := "detail("

  /** The characters '.' does not match without the s flag. */
  predicate IsLineTerminator(c: char) {
    c == '\n' || c == '\r' || c == '\U{2028}' || c == '\U{2029}'
  }

  /** The end of the run of digits that starts at j. */
  function DigitRunEnd(s: string, j: nat): (e: nat)
    requires j <= |s|
    ensures j <= e <= |s|
    decreases |s| - j
  {
    if j < |s| && IsDigit(s[j]) then DigitRunEnd(s, j + 1) else j
  }

  /** \d+ is greedy: the run holds digits only and stops before a non-digit or the end. */
  lemma {:induction false} DigitRunEndIsMaximal(s: string, j: nat)
    requires j <= |s|
    ensures var e := DigitRunEnd(s, j);
      (forall k :: j <= k < e ==> IsDigit(s[k])) && (e < |s| ==> !IsDigit(s[e]))
    decreases |s| - j
  {
    if j < |s| && IsDigit(s[j]) {
      DigitRunEndIsMaximal(s, j + 1);
    }
  }

  /**
   * Where the capture group starts when the part of the pattern before it,
   * "matches_" \d+ "(" or "detail(", matches at position i.
   */
  function CaptureStart(s: string, i: nat, p: Pattern): (r: Option<nat>)
    requires i <= |s|
    ensures r.Some? ==> i < r.value <= |s| && s[r.value - 1] == '('
    ensures r.Some? && p == MatchesCall ==>
      i + |MatchesName| < r.value - 1 && s[i..i + |MatchesName|] == MatchesName
      && forall k :: i + |MatchesName| <= k < r.value - 1 ==> IsDigit(s[k])
    ensures r.Some? && p == DetailCall ==> r.value == i + |DetailName| && s[i..r.value] == DetailName
  {
    match p
    case MatchesCall =>
      if i + |MatchesName| <= |s| && s[i..i + |MatchesName|] == MatchesName then
        var e := DigitRunEnd(s, i + |MatchesName|);
        DigitRunEndIsMaximal(s, i + |MatchesName|);
        if i + |MatchesName| < e < |s| && s[e] == '(' then Some(e + 1) else None
      else None
    case DetailCall =>
      if i + |DetailName| <= |s| && s[i..i + |DetailName|] == DetailName then
        assert s[i + |DetailName| - 1] == DetailName[|DetailName| - 1];
        Some(i + |DetailName|)
      else None
  }

  /** How far '.' can reach from j: the end of the text, or the next line terminator without s. */
  function ReachEnd(s: string, j: nat, p: Pattern): (e: nat)
    requires j <= |s|
    ensures j <= e <= |s|
    ensures p == MatchesCall ==> e == |s|
    decreases |s| - j
  {
    if p == MatchesCall || j == |s| || IsLineTerminator(s[j]) then (if p == MatchesCall then |s| else j)
    else ReachEnd(s, j + 1, p)
  }

  /** Without the s flag '.' stops exactly at the first line terminator. */
  lemma {:induction false} ReachEndStopsAtLine(s: string, j: nat)
    requires j <= |s|
    ensures var e := ReachEnd(s, j, DetailCall);
      (forall k :: j <= k < e ==> !IsLineTerminator(s[k])) && (e < |s| ==> IsLineTerminator(s[e]))
    decreases |s| - j
  {
    if j < |s| && !IsLineTerminator(s[j]) {
      ReachEndStopsAtLine(s, j + 1);
    }
  }

  /** The last ')' in s[j..e], if any. */
  function LastClose(s: string, j: nat, e: nat): (r: Option<nat>)
    requires j <= e <= |s|
    ensures r.Some? ==> j <= r.value < e && s[r.value] == ')'
    decreases e - j
  {
    if e == j then None else if s[e - 1] == ')' then Some(e - 1) else LastClose(s, j, e - 1)
  }

  /** The greedy (.*) backs off only to the last ')' it can reach, and fails only when there is none. */
  lemma {:induction false} LastCloseIsLast(s: string, j: nat, e: nat)
    requires j <= e <= |s|
    ensures var r := LastClose(s, j, e);
      (r.Some? ==> forall k :: r.value < k < e ==> s[k] != ')')
      && (r.None? ==> forall k :: j <= k < e ==> s[k] != ')')
    decreases e - j
  {
    if e != j && s[e - 1] != ')' {
      LastCloseIsLast(s, j, e - 1);
    }
  }

  /** The captured span when the whole pattern matches at position i. */
  datatype Capture = Capture(start: nat, end: nat)

  function MatchAt(s: string, i: nat, p: Pattern): (r: Option<Capture>)
    requires i <= |s|
    ensures r.Some? ==> i < r.value.start <= r.value.end < |s| && s[r.value.start - 1] == '(' && s[r.value.end] == ')'
  {
    match CaptureStart(s, i, p)
    case None => None
    case Some(j) =>
      match LastClose(s, j, ReachEnd(s, j, p))
      case None => None
      case Some(k) => Some(Capture(j, k))
  }

  /**
   * What a match captures: with the s flag everything up to the text's last
   * ')'; without it, text on one line only.
   */
  lemma MatchAtCapture(s: string, i: nat, p: Pattern)
    requires i <= |s| && MatchAt(s, i, p).Some?
    ensures var c := MatchAt(s, i, p).value;
      (p == MatchesCall ==> forall k :: c.end < k < |s| ==> s[k] != ')')
      && (p == DetailCall ==> forall k :: c.start <= k < c.end ==> !IsLineTerminator(s[k]))
  {
    var j := CaptureStart(s, i, p).value;
    LastCloseIsLast(s, j, ReachEnd(s, j, p));
    if p == DetailCall {
      ReachEndStopsAtLine(s, j);
    }
  }

  /** The leftmost position at or after i where the pattern matches. */
  function FirstMatchFrom(s: string, i: nat, p: Pattern): (r: Option<nat>)
    requires i <= |s| + 1
    ensures r.Some? ==> i <= r.value <= |s| && MatchAt(s, r.value, p).Some?
    decreases |s| + 1 - i
  {
    if i > |s| then None
    else if MatchAt(s, i, p).Some? then Some(i)
    else FirstMatchFrom(s, i + 1, p)
  }

  /** No position the search passes over matches: it finds the leftmost match, or there is none. */
  lemma {:induction false} FirstMatchFromLeftmost(s: string, i: nat, p: Pattern)
    requires i <= |s| + 1
    ensures var r := FirstMatchFrom(s, i, p);
      forall n :: i <= n <= |s| && (r.None? || n < r.value) ==> MatchAt(s, n, p).None?
    decreases |s| + 1 - i
  {
    if i <= |s| && MatchAt(s, i, p).None? {
      FirstMatchFromLeftmost(s, i + 1, p);
    }
  }

  /** The search finds a match exactly when there is one. */
  lemma FirstMatchFromFinds(s: string, i: nat, p: Pattern)
    requires i <= |s| + 1
    ensures FirstMatchFrom(s, i, p).None? <==> forall n :: i <= n <= |s| ==> MatchAt(s, n, p).None?
  {
    FirstMatchFromLeftmost(s, i, p);
  }

  /**
   * A match needs the pattern's literal name right before the '(':
   * "matches_" and at least one digit, or "detail".
   */
  lemma MatchAtNeedsName(s: string, i: nat, p: Pattern)
    requires i <= |s| && MatchAt(s, i, p).Some?
    ensures var c := MatchAt(s, i, p).value;
      (p == MatchesCall ==>
        i + |MatchesName| < c.start - 1 && s[i..i + |MatchesName|] == MatchesName
        && forall k :: i + |MatchesName| <= k < c.start - 1 ==> IsDigit(s[k]))
      && (p == DetailCall ==> c.start == i + |DetailName| && s[i..c.start] == DetailName)
  {
  }

  /** The literal the pattern starts with: "matches_", or "detail(" with its parenthesis. */
  function Name(p: Pattern): string {
    match p
    case MatchesCall => MatchesName
    case DetailCall => DetailName
  }

  /** The pattern's literal occurs at position i. */
  predicate NameAt(s: string, i: nat, p: Pattern) {
    i + |Name(p)| <= |s| && s[i..i + |Name(p)|] == Name(p)
  }

  /** Text in which the pattern's literal never occurs has no envelope: `if (!m) return []`. */
  lemma ExtractWithoutName(s: string, p: Pattern)
    requires forall i :: 0 <= i <= |s| ==> !NameAt(s, i, p)
    ensures Extract(s, p) == None
  {
    forall n | 0 <= n <= |s|
      ensures MatchAt(s, n, p).None?
    {
      assert !NameAt(s, n, p);
      if MatchAt(s, n, p).Some? {
        MatchAtNeedsName(s, n, p);
        assert false;
      }
    }
    FirstMatchFromFinds(s, 0, p);
  }

  /** Any other callback name is no envelope: foo(1) matches neither pattern. */
  lemma ForeignCallback()
    ensures Extract("foo(1)", MatchesCall) == None && Extract("foo(1)", DetailCall) == None
  {
    ExtractWithoutName("foo(1)", MatchesCall);
    ExtractWithoutName("foo(1)", DetailCall);
  }

  /** txt.match(pattern)?.[1]: the text of the capture group, None when the pattern does not match. */
  function Extract(s: string, p: Pattern): (r: Option<string>)
    ensures r.Some? ==> p == DetailCall ==> forall k :: 0 <= k < |r.value| ==> !IsLineTerminator(r.value[k])
  {
    match FirstMatchFrom(s, 0, p)
    case None => None
    case Some(n) =>
      var c := MatchAt(s, n, p).value;
      MatchAtCapture(s, n, p);
      Some(s[c.start..c.end])
  }

  /** When the pattern matches at the very start, that match is the one reported. */
  lemma ExtractAtStart(s: string, p: Pattern)
    requires MatchAt(s, 0, p).Some?
    ensures Extract(s, p) == Some(s[MatchAt(s, 0, p).value.start..MatchAt(s, 0, p).value.end])
  {
  }

  lemma {:induction false} DigitRunEndAt(s: string, j: nat, e: nat)
    requires j <= e < |s| && !IsDigit(s[e])
    requires forall k :: j <= k < e ==> IsDigit(s[k])
    ensures DigitRunEnd(s, j) == e
    decreases e - j
  {
    if j < e {
      DigitRunEndAt(s, j + 1, e);
    }
  }

  lemma {:induction false} LastCloseAt(s: string, j: nat, c: nat, e: nat)
    requires j <= c < e <= |s| && s[c] == ')'
    requires forall k :: c < k < e ==> s[k] != ')'
    ensures LastClose(s, j, e) == Some(c)
    decreases e - c
  {
    if c < e - 1 {
      LastCloseAt(s, j, c, e - 1);
    }
  }

  /** The literal "matches_", a run of digits and '(' at i make the group start right after the '('. */
  lemma CaptureStartAt(s: string, i: nat, e: nat)
    requires i + |MatchesName| < e < |s| && s[i..i + |MatchesName|] == MatchesName
    requires forall k :: i + |MatchesName| <= k < e ==> IsDigit(s[k])
    requires s[e] == '('
    ensures CaptureStart(s, i, MatchesCall) == Some(e + 1)
  {
    DigitRunEndAt(s, i + |MatchesName|, e);
  }

  /** The literal "detail(" at i makes the group start right after it. */
  lemma CaptureStartDetailAt(s: string, i: nat)
    requires NameAt(s, i, DetailCall)
    ensures CaptureStart(s, i, DetailCall) == Some(i + |DetailName|)
  {
  }

  /** A match at n with no match before it is the one `match` reports. */
  lemma ExtractAt(s: string, n: nat, p: Pattern)
    requires n <= |s| && MatchAt(s, n, p).Some?
    requires forall m :: 0 <= m < n ==> MatchAt(s, m, p).None?
    ensures Extract(s, p) == Some(s[MatchAt(s, n, p).value.start..MatchAt(s, n, p).value.end])
  {
    FirstMatchFromLeftmost(s, 0, p);
    FirstMatchFromFinds(s, 0, p);
  }

  /**
   * The search moves past text that does not match: matches_<digits>(payload)
   * after a prefix in which no match begins gives the payload back whole.
   */
  lemma ExtractMatchesAfter(pre: string, digits: string, payload: string, tail: string)
    requires |digits| >= 1 && AllDigits(digits) && ')' !in tail
    requires forall m :: 0 <= m < |pre| ==>
      MatchAt(pre + MatchesName + digits + "(" + payload + ")" + tail, m, MatchesCall).None?
    ensures Extract(pre + MatchesName + digits + "(" + payload + ")" + tail, MatchesCall) == Some(payload)
  {
    var s := pre + MatchesName + digits + "(" + payload + ")" + tail;
    var h := |pre|;
    var d := h + |MatchesName| + |digits|;
    var c := d + 1 + |payload|;
    assert s[h..h + |MatchesName|] == MatchesName;
    assert forall k :: h + |MatchesName| <= k < d ==> s[k] == digits[k - h - |MatchesName|];
    assert s[d] == '(' && s[c] == ')';
    assert forall k :: c < k < |s| ==> s[k] == tail[k - c - 1];
    assert s[d + 1..c] == payload;
    CaptureStartAt(s, h, d);
    LastCloseAt(s, d + 1, c, |s|);
    assert MatchAt(s, h, MatchesCall) == Some(Capture(d + 1, c));
    ExtractAt(s, h, MatchesCall);
  }

  /** The same for a room: detail(payload) on one line after a prefix in which no match begins. */
  lemma ExtractDetailAfter(pre: string, payload: string, tail: string)
    requires forall k :: 0 <= k < |payload| ==> !IsLineTerminator(payload[k])
    requires ')' !in tail
    requires forall m :: 0 <= m < |pre| ==>
      MatchAt(pre + DetailName + payload + ")" + tail, m, DetailCall).None?
    ensures Extract(pre + DetailName + payload + ")" + tail, DetailCall) == Some(payload)
  {
    var s := pre + DetailName + payload + ")" + tail;
    var h := |pre|;
    var j := h + |DetailName|;
    var c := j + |payload|;
    assert s[h..j] == DetailName;
    assert forall k :: j <= k < c ==> s[k] == payload[k - j];
    assert s[c] == ')';
    assert forall k :: c < k < |s| ==> s[k] == tail[k - c - 1];
    assert s[j..c] == payload;
    CaptureStartDetailAt(s, h);
    var e := ReachEnd(s, j, DetailCall);
    ReachEndStopsAtLine(s, j);
    assert e > c;
    LastCloseAt(s, j, c, e);
    assert MatchAt(s, h, DetailCall) == Some(Capture(j, c));
    ExtractAt(s, h, DetailCall);
  }

  /** A comment before the envelope does not hide it. */
  lemma CommentedEnvelope()
    ensures Extract("/**/matches_1(x)", MatchesCall) == Some("x")
  {
    var s := "/**/matches_1(x)";
    assert s == "/**/" + MatchesName + "1" + "(" + "x" + ")" + "";
    forall m | 0 <= m < 4
      ensures MatchAt(s, m, MatchesCall).None?
    {
      assert s[m] != MatchesName[0];
      assert !NameAt(s, m, MatchesCall);
      if MatchAt(s, m, MatchesCall).Some? {
        MatchAtNeedsName(s, m, MatchesCall);
        assert false;
      }
    }
    ExtractMatchesAfter("/**/", "1", "x", "");
  }

  /**
   * A room envelope broken by a line break does not match, and the search
   * moves on: a later line holding detail(...) is the one reported.
   */
  lemma BrokenThenNextDetail()
    ensures Extract("detail(\ndetail(5)", DetailCall) == Some("5")
  {
    var pre := "detail(\n";
    var s := pre + DetailName + "5" + ")" + "";
    assert s == "detail(\ndetail(5)";
    assert ReachEnd(s, 7, DetailCall) == 7;
    assert MatchAt(s, 0, DetailCall).None?;
    forall m | 1 <= m < |pre|
      ensures MatchAt(s, m, DetailCall).None?
    {
      assert !NameAt(s, m, DetailCall);
      if MatchAt(s, m, DetailCall).Some? {
        MatchAtNeedsName(s, m, DetailCall);
        assert false;
      }
    }
    ExtractDetailAfter(pre, "5", "");
  }

  /** matches_<digits>( at the start of s, with the text's last ')' at c: the capture is s[d + 1..c]. */
  lemma ExtractMatchesAtStart(s: string, d: nat, c: nat)
    requires |MatchesName| < d < c < |s|
    requires s[..|MatchesName|] == MatchesName
    requires forall k :: |MatchesName| <= k < d ==> IsDigit(s[k])
    requires s[d] == '(' && s[c] == ')'
    requires forall k :: c < k < |s| ==> s[k] != ')'
    ensures Extract(s, MatchesCall) == Some(s[d + 1..c])
  {
    DigitRunEndAt(s, |MatchesName|, d);
    assert CaptureStart(s, 0, MatchesCall) == Some(d + 1);
    LastCloseAt(s, d + 1, c, |s|);
    assert MatchAt(s, 0, MatchesCall) == Some(Capture(d + 1, c));
    ExtractAtStart(s, MatchesCall);
  }

  /** A day's payload wrapped as matches_<digits>(payload) comes back whole, newlines and ')' included. */
  lemma ExtractMatchesWrapped(digits: string, payload: string, tail: string)
    requires |digits| >= 1 && AllDigits(digits) && ')' !in tail
    ensures Extract(MatchesName + digits + "(" + payload + ")" + tail, MatchesCall) == Some(payload)
  {
    var s := MatchesName + digits + "(" + payload + ")" + tail;
    var h := |MatchesName|;
    var d := h + |digits|;
    var c := d + 1 + |payload|;
    assert s[..h] == MatchesName;
    assert forall k :: h <= k < d ==> s[k] == digits[k - h];
    assert s[d] == '(' && s[c] == ')';
    assert forall k :: c < k < |s| ==> s[k] == tail[k - c - 1];
    assert s[d + 1..c] == payload;
    ExtractMatchesAtStart(s, d, c);
  }

  /**
   * detail( at the start of s, with the last ')' before the first line break
   * at c (every later ')' comes after a line terminator): the capture is s[7..c].
   */
  lemma ExtractDetailAtStart(s: string, c: nat)
    requires |DetailName| <= c < |s| && s[..|DetailName|] == DetailName && s[c] == ')'
    requires forall k :: |DetailName| <= k < c ==> !IsLineTerminator(s[k])
    requires forall k :: c < k < |s| && s[k] == ')' ==> exists l :: c < l < k && IsLineTerminator(s[l])
    ensures Extract(s, DetailCall) == Some(s[|DetailName|..c])
  {
    var j := |DetailName|;
    assert CaptureStart(s, 0, DetailCall) == Some(j);
    var e := ReachEnd(s, j, DetailCall);
    ReachEndStopsAtLine(s, j);
    assert e > c;
    forall k | c < k < e
      ensures s[k] != ')'
    {
      assert forall l :: c < l < k ==> !IsLineTerminator(s[l]);
    }
    LastCloseAt(s, j, c, e);
    assert MatchAt(s, 0, DetailCall) == Some(Capture(j, c));
    ExtractAtStart(s, DetailCall);
  }

  /** A room's one-line payload wrapped as detail(payload) comes back whole. */
  lemma ExtractDetailWrapped(payload: string, tail: string)
    requires forall k :: 0 <= k < |payload| ==> !IsLineTerminator(payload[k])
    requires ')' !in tail
    ensures Extract(DetailName + payload + ")" + tail, DetailCall) == Some(payload)
  {
    var s := DetailName + payload + ")" + tail;
    var j := |DetailName|;
    var c := j + |payload|;
    assert s[..j] == DetailName;
    assert forall k :: j <= k < c ==> s[k] == payload[k - j];
    assert s[c] == ')';
    assert forall k :: c < k < |s| ==> s[k] == tail[k - c - 1];
    assert s[j..c] == payload;
    ExtractDetailAtStart(s, c);
  }

  /**
   * Whatever follows the first line break is out of the room pattern's reach:
   * detail(payload) ending its line comes back as payload, even when later
   * lines hold more ')' (a payload that spans lines is cut at its first line).
   */
  lemma ExtractDetailCutAtLine(payload: string, rest: string)
    requires forall k :: 0 <= k < |payload| ==> !IsLineTerminator(payload[k])
    ensures Extract(DetailName + payload + ")\n" + rest, DetailCall) == Some(payload)
  {
    var s := DetailName + payload + ")\n" + rest;
    var j := |DetailName|;
    var c := j + |payload|;
    assert s[..j] == DetailName;
    assert forall k :: j <= k < c ==> s[k] == payload[k - j];
    assert s[c] == ')' && IsLineTerminator(s[c + 1]);
    assert s[j..c] == payload;
    ExtractDetailAtStart(s, c);
  }

  /**
   * Without the s flag a room payload may not span lines: when its only ')'
   * follows a line break, the detail pattern does not match at all.
   */
  lemma ExtractDetailMultiline(first: string, rest: string)
    requires '(' !in first && ')' !in first && '(' !in rest && ')' !in rest
    requires forall k :: 0 <= k < |first| ==> !IsLineTerminator(first[k])
    ensures Extract(DetailName + first + "\n" + rest + ")", DetailCall) == None
  {
    var s := DetailName + first + "\n" + rest + ")";
    var j := |DetailName|;
    assert s[..j] == DetailName;
    assert forall k :: j <= k < j + |first| ==> s[k] == first[k - j];
    assert IsLineTerminator(s[j + |first|]);
    ReachEndStopsAtLine(s, j);
    assert ReachEnd(s, j, DetailCall) == j + |first|;
    assert MatchAt(s, 0, DetailCall).None?;
    forall n | 1 <= n <= |s|
      ensures MatchAt(s, n, DetailCall).None?
    {
    }
    FirstMatchFromFinds(s, 0, DetailCall);
  }

  /** Text without any ')' has no envelope of either kind. */
  lemma ExtractWithoutClose(s: string, p: Pattern)
    requires ')' !in s
    ensures Extract(s, p) == None
  {
    forall n | 0 <= n <= |s|
      ensures MatchAt(s, n, p).None?
    {
    }
    FirstMatchFromFinds(s, 0, p);
  }
}
