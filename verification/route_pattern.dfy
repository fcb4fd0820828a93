/**
 * A route template and its prefix match, standing in for Django's
 * `RoutePattern`. The template language is a stated assumption of the model:
 * literal text, `<int:name>` (one or more ASCII digits, converted to an
 * integer) and `<str:name>` (one or more characters other than `/`). Matching
 * is anchored at the start of the path and is a PREFIX match: it returns
 * whatever text follows the matched part, together with the captured
 * arguments. Parameters behave as the greedy regular expressions `[0-9]+` and
 * `[^/]+` do, backtracking to shorter captures when the rest of the template
 * does not match otherwise.
 */
module RoutePattern {
  import opened Common
  import opened PyString

  datatype Segment = Lit(text: string) | IntParam(name: string) | StrParam(name: string) {
    predicate IsParam() { !Lit? }
  }

  type Template = seq<Segment>

  /** A captured argument after conversion. */
  datatype Arg = IntArg(n: nat) | StrArg(s: string)

  type Kwargs = map<string, Arg>

  /** A successful match: the text after the matched part, and the captured arguments. */
  datatype Match = Match(remaining: string, kwargs: Kwargs)

  function SegmentText(seg: Segment): string {
    match seg
    case Lit(t) => t
    case IntParam(n) => "<int:" + n + ">"
    case StrParam(n) => "<str:" + n + ">"
  }

  /** `str(pattern)`: the template as written. */
  function Text(t: Template): string {
    if t == [] then "" else SegmentText(t[0]) + Text(t[1..])
  }

  /** Whether a parameter segment may capture character `c`. */
  predicate InClass(seg: Segment, c: char)
    requires seg.IsParam()
  {
    if seg.IntParam? then IsDigit(c) else c != '/'
  }

  predicate AllInClass(seg: Segment, w: string)
    requires seg.IsParam()
  {
    forall i :: 0 <= i < |w| ==> InClass(seg, w[i])
  }

  /** A shorter capture stays within the class. */
  lemma ShorterCapture(seg: Segment, s: string, k: nat)
    requires seg.IsParam() && 0 < k <= |s| && AllInClass(seg, s[..k])
    ensures AllInClass(seg, s[..k - 1])
  {
    assert s[..k - 1] == s[..k][..k - 1];
  }

  /** The length of the longest prefix of `s` that `seg` may capture. */
  function RunLength(seg: Segment, s: string): (k: nat)
    requires seg.IsParam()
    ensures k <= |s|
    ensures AllInClass(seg, s[..k])
    ensures k < |s| ==> !InClass(seg, s[k])
  {
    if s != [] && InClass(seg, s[0]) then
      var k := RunLength(seg, s[1..]);
      assert s[..k + 1] == [s[0]] + s[1..][..k];
      k + 1
    else 0
  }

  /** The converter's `to_python` for a captured text. */
  function Convert(seg: Segment, w: string): Arg
    requires seg.IsParam() && AllInClass(seg, w)
  {
    if seg.IntParam? then IntArg(DigitsValue(w)) else StrArg(w)
  }

  /**
   * `pattern.match(s)`: `None` when the template does not match a prefix of
   * `s`; otherwise the remainder is no longer than `s` (it is the text
   * after the matched prefix, see `MatchPrefixSound`).
   */
  function MatchPrefix(t: Template, s: string): (r: Option<Match>)
    ensures r.Some? ==> |r.value.remaining| <= |s|
    decreases |t|, 1
  {
    if t == [] then Some(Match(s, map[]))
    else match t[0]
      case Lit(l) => if StartsWith(s, l) then MatchPrefix(t[1..], s[|l|..]) else None
      case _ => TryCapture(t, s, RunLength(t[0], s))
  }

  /**
   * Tries captures of length `k`, `k - 1`, ..., 1 for the leading parameter
   * of `t`; a success consumes at least the one captured character.
   */
  function TryCapture(t: Template, s: string, k: nat): (r: Option<Match>)
    requires t != [] && t[0].IsParam()
    requires k <= |s| && AllInClass(t[0], s[..k])
    ensures r.Some? ==> |r.value.remaining| < |s|
    decreases |t|, 0, k
  {
    if k == 0 then None
    else
      ShorterCapture(t[0], s, k);
      match MatchPrefix(t[1..], s[k..])
      case Some(m) => Some(Match(m.remaining, m.kwargs[t[0].name := Convert(t[0], s[..k])]))
      case None => TryCapture(t, s, k - 1)
  }

  // ---- an independent description of what a template matches ----

  /** `c` is, in its entirety, an instance of template `t`. */
  ghost predicate Conforms(t: Template, c: string)
    decreases |t|
  {
    if t == [] then c == []
    else match t[0]
      case Lit(l) => StartsWith(c, l) && Conforms(t[1..], c[|l|..])
      case _ =>
        exists k :: 1 <= k <= |c| && AllInClass(t[0], c[..k]) && Conforms(t[1..], c[k..])
  }

  function ParamNames(t: Template): set<string> {
    if t == [] then {} else (if t[0].IsParam() then {t[0].name} else {}) + ParamNames(t[1..])
  }

  /** What a successful match promises: `s` splits into an instance of `t` and the remainder. */
  ghost predicate SoundMatch(t: Template, s: string, m: Match) {
    && |m.remaining| <= |s|
    && s == s[..|s| - |m.remaining|] + m.remaining
    && Conforms(t, s[..|s| - |m.remaining|])
    && m.kwargs.Keys == ParamNames(t)
  }

  lemma {:induction false} MatchPrefixSound(t: Template, s: string)
    ensures MatchPrefix(t, s).Some? ==> SoundMatch(t, s, MatchPrefix(t, s).value)
    decreases |t|, 1
  {
    if t != [] && MatchPrefix(t, s).Some? {
      match t[0]
      case Lit(l) =>
        var rest := s[|l|..];
        MatchPrefixSound(t[1..], rest);
        var m := MatchPrefix(t, s).value;
        var c := s[..|s| - |m.remaining|];
        assert c == l + rest[..|rest| - |m.remaining|];
        assert c[|l|..] == rest[..|rest| - |m.remaining|];
      case _ =>
        TryCaptureSound(t, s, RunLength(t[0], s));
    }
  }

  /** One capture of length `k` followed by a sound match of the rest is a sound match of the whole. */
  lemma CaptureStep(t: Template, s: string, k: nat, m': Match)
    requires t != [] && t[0].IsParam()
    requires 1 <= k <= |s| && AllInClass(t[0], s[..k])
    requires SoundMatch(t[1..], s[k..], m')
    ensures SoundMatch(t, s, Match(m'.remaining, m'.kwargs[t[0].name := Convert(t[0], s[..k])]))
  {
    var rest := s[k..];
    var c := s[..|s| - |m'.remaining|];
    assert c[..k] == s[..k];
    assert c[k..] == rest[..|rest| - |m'.remaining|];
    assert 1 <= k <= |c| && AllInClass(t[0], c[..k]) && Conforms(t[1..], c[k..]);
  }

  lemma {:induction false} TryCaptureSound(t: Template, s: string, k: nat)
    requires t != [] && t[0].IsParam()
    requires k <= |s| && AllInClass(t[0], s[..k])
    ensures TryCapture(t, s, k).Some? ==> SoundMatch(t, s, TryCapture(t, s, k).value)
    decreases |t|, 0, k
  {
    if k > 0 {
      ShorterCapture(t[0], s, k);
      MatchPrefixSound(t[1..], s[k..]);
      match MatchPrefix(t[1..], s[k..])
      case Some(m') => CaptureStep(t, s, k, m');
      case None => TryCaptureSound(t, s, k - 1);
    }
  }

  lemma {:induction false} TryCaptureFinds(t: Template, s: string, k: nat, j: nat)
    requires t != [] && t[0].IsParam()
    requires k <= |s| && AllInClass(t[0], s[..k])
    requires 1 <= j <= k && MatchPrefix(t[1..], s[j..]).Some?
    ensures TryCapture(t, s, k).Some?
    decreases k
  {
    if MatchPrefix(t[1..], s[k..]).None? {
      ShorterCapture(t[0], s, k);
      TryCaptureFinds(t, s, k - 1, j);
    }
  }

  /** Every instance of `t`, followed by anything, is matched. */
  lemma {:induction false} MatchPrefixComplete(t: Template, c: string, r: string)
    requires Conforms(t, c)
    ensures MatchPrefix(t, c + r).Some?
    decreases |t|, 1
  {
    if t != [] {
      match t[0]
      case Lit(l) =>
        var s := c + r;
        assert s[..|l|] == c[..|l|];
        assert s[|l|..] == c[|l|..] + r;
        MatchPrefixComplete(t[1..], c[|l|..], r);
      case _ =>
        var k :| 1 <= k <= |c| && AllInClass(t[0], c[..k]) && Conforms(t[1..], c[k..]);
        CompleteCapture(t, c, r, k);
    }
  }

  lemma {:induction false} CompleteCapture(t: Template, c: string, r: string, k: nat)
    requires t != [] && t[0].IsParam()
    requires 1 <= k <= |c| && AllInClass(t[0], c[..k]) && Conforms(t[1..], c[k..])
    ensures MatchPrefix(t, c + r).Some?
    decreases |t|, 0
  {
    var s := c + r;
    assert s[k..] == c[k..] + r;
    assert s[..k] == c[..k];
    MatchPrefixComplete(t[1..], c[k..], r);
    var n := RunLength(t[0], s);
    assert n >= k;
    TryCaptureFinds(t, s, n, k);
  }

  /** Together: the template matches a prefix of `s` exactly when some prefix of `s` is an instance of it. */
  lemma MatchIffInstance(t: Template, s: string)
    ensures MatchPrefix(t, s).Some? <==> exists n :: 0 <= n <= |s| && Conforms(t, s[..n])
  {
    if MatchPrefix(t, s).Some? {
      MatchPrefixSound(t, s);
      var m := MatchPrefix(t, s).value;
      assert Conforms(t, s[..|s| - |m.remaining|]);
    } else if n :| 0 <= n <= |s| && Conforms(t, s[..n]) {
      assert s[..n] + s[n..] == s;
      MatchPrefixComplete(t, s[..n], s[n..]);
    }
  }

  // ---- literal-only templates and the static part of a template ----

  predicate IsStatic(t: Template) {
    forall i :: 0 <= i < |t| ==> t[i].Lit?
  }

  /** For a template without parameters, matching is `startswith` on its text. */
  lemma {:induction false} StaticMatch(t: Template, s: string)
    requires IsStatic(t)
    ensures MatchPrefix(t, s) ==
      if StartsWith(s, Text(t)) then Some(Match(s[|Text(t)|..], map[])) else None
  {
    if t != [] {
      var l := t[0].text;
      assert IsStatic(t[1..]) by {
        forall i | 0 <= i < |t[1..]| ensures t[1..][i].Lit? { assert t[1..][i] == t[i + 1]; }
      }
      assert Text(t) == l + Text(t[1..]);
      StartsWithSplit(s, l, Text(t[1..]));
      if StartsWith(s, l) {
        StaticMatch(t[1..], s[|l|..]);
      }
    }
  }

  /** The text of the literal segments before the first parameter. */
  function LeadingLiteral(t: Template): string {
    if t == [] || t[0].IsParam() then "" else t[0].text + LeadingLiteral(t[1..])
  }

  /** The template text is its leading literal followed by text that is empty or opens with `<`. */
  lemma {:induction false} TextSplitsAtFirstParam(t: Template)
    ensures StartsWith(Text(t), LeadingLiteral(t))
    ensures var tail := Text(t)[|LeadingLiteral(t)|..]; tail == [] || tail[0] == '<'
  {
    if t != [] && t[0].Lit? {
      TextSplitsAtFirstParam(t[1..]);
      assert Text(t) == t[0].text + Text(t[1..]);
      assert Text(t)[..|LeadingLiteral(t)|] == t[0].text + Text(t[1..])[..|LeadingLiteral(t[1..])|];
      assert Text(t)[|LeadingLiteral(t)|..] == Text(t[1..])[|LeadingLiteral(t[1..])|..];
    }
  }

  /** Every instance of a template begins with the template's leading literal. */
  lemma {:induction false} InstanceStartsWithLeadingLiteral(t: Template, c: string)
    requires Conforms(t, c)
    ensures StartsWith(c, LeadingLiteral(t))
    decreases |t|
  {
    if t != [] && t[0].Lit? {
      var l := t[0].text;
      InstanceStartsWithLeadingLiteral(t[1..], c[|l|..]);
      assert c[..|l| + |LeadingLiteral(t[1..])|] == l + c[|l|..][..|LeadingLiteral(t[1..])|];
    }
  }

  /** Any text a template matches a prefix of starts with the template's leading literal. */
  lemma MatchStartsWithLeadingLiteral(t: Template, s: string)
    requires MatchPrefix(t, s).Some?
    ensures StartsWith(s, LeadingLiteral(t))
  {
    MatchPrefixSound(t, s);
    var m := MatchPrefix(t, s).value;
    var c := s[..|s| - |m.remaining|];
    InstanceStartsWithLeadingLiteral(t, c);
    var l := LeadingLiteral(t);
    assert s[..|l|] == c[..|l|];
  }
}
