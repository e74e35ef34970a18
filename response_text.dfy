/** `processText` and `cleanUpFollowUp` (src/utils/index.js): the analysis of
    a generated answer into its display text, its citation list, its
    "following steps" and its follow-up questions. Each regular expression
    of the source is written out as a scanner over the text. */
module ResponseText {
  import opened Wrappers
  import opened JsText
  import opened Messages
  import opened Citations

  /** The literal `nextQuestionMatch` string the source tests with `includes`. */
  const NextQuestionMatch: string := "Next questions:|<<([^>]+)>>"
  const FollowUpHeader: string := "Follow-up questions:"
  const NextQuestionsHeader: string := "Next questions:"
  /** The header `findNextQuestions` looks for, with a capital `Q`. */
  const NextQuestionsCapital: string := "Next Questions:"
  const OpenArrows: string := "<<"
  const CloseArrows: string := ">>"
  const Colon: string := ":"
  const StepsMarker: string := "s:"

  /** What `processText` hands back: `replacedText` and the three slots
      `arrays[0]`, `arrays[1]`, `arrays[2]` it fills. */
  datatype ProcessedText = ProcessedText(
    replacedText: string,
    citations: seq<Citation>,
    followingSteps: seq<string>,
    followupQuestions: seq<string>)

  // ---------------------------------------------------------------------
  // Following steps: `/:(.*?)(?:Follow-up questions:|Next questions:|<<|$)/s`

  /** An index where the lazy `(.*?)` may stop: one of the three markers
      starts there, or the text ends (`$` without the `m` flag). */
  predicate StepsStop(s: string, k: nat) {
    k == |s| || OccursAt(s, FollowUpHeader, k) || OccursAt(s, NextQuestionsHeader, k) || OccursAt(s, OpenArrows, k)
  }

  /** The first stop at or after `k`. */
  function StepsEnd(s: string, k: nat): (r: nat)
    requires k <= |s|
    ensures k <= r <= |s| && StepsStop(s, r)
    ensures forall m :: k <= m < r ==> !StepsStop(s, m)
    decreases |s| - k
  {
    if StepsStop(s, k) then k else StepsEnd(s, k + 1)
  }

  /** The capture of the steps pattern: from just after the first `:` to the
      first stop; `None` when there is no `:` (no match). With the `s` flag
      `.` matches line terminators too, so the first `:` always matches. */
  function StepsCapture(s: string): (r: Option<string>)
    ensures r.None? <==> !Includes(s, Colon)
  {
    match IndexOf(s, Colon)
    case None => None
    case Some(c) => Some(s[c + 1..StepsEnd(s, c + 1)])
  }

  /** The number of leading decimal digits of `s`. */
  function LeadingDigits(s: string): (n: nat)
    ensures n <= |s| && AllDigits(s[..n])
    ensures n < |s| ==> !IsDigit(s[n])
  {
    if s != [] && IsDigit(s[0]) then
      var n := 1 + LeadingDigits(s[1..]);
      assert s[..n] == [s[0]] + s[1..][..n - 1];
      n
    else 0
  }

  /** `item.replace(/^\d+\.\s/, '')`. The greedy `\d+` can only end at the
      last leading digit, since the `.` after it is not a digit. */
  function StripNumbering(item: string): string {
    var n := LeadingDigits(item);
    if 1 <= n && n + 1 < |item| && item[n] == '.' && IsWhiteSpace(item[n + 1]) then item[n + 2..]
    else item
  }

  /** A numbered prefix: one or more digits, a `.`, one white-space character. */
  predicate NumberingPrefix(p: string) {
    |p| >= 3 && AllDigits(p[..|p| - 2]) && p[|p| - 2] == '.' && IsWhiteSpace(p[|p| - 1])
  }

  /** Stripping leaves the line alone, or removes exactly a numbered prefix,
      and it removes one whenever the line starts with one. */
  lemma StripNumberingSpec(item: string)
    ensures var r := StripNumbering(item);
      && |r| <= |item| && r == item[|item| - |r|..]
      && (r != item ==> NumberingPrefix(item[..|item| - |r|]))
    ensures forall p, rest :: item == p + rest && NumberingPrefix(p) ==> StripNumbering(item) == rest
  {
    var n := LeadingDigits(item);
    var r := StripNumbering(item);
    if r != item {
      var p := item[..n + 2];
      assert p[..|p| - 2] == item[..n];
    }
    forall p, rest | item == p + rest && NumberingPrefix(p)
      ensures StripNumbering(item) == rest
    {
      var k := |p| - 2;
      forall m | 0 <= m < k
        ensures IsDigit(item[m])
      {
        assert item[m] == p[..k][m];
      }
      LeadingDigitsAtLeast(item, k);
      assert item[k] == p[k] == '.';
      assert item[k + 1] == p[k + 1];
      assert item[k + 2..] == rest;
    }
  }

  /** With the first `k` characters digits and the next one not, there are
      exactly `k` leading digits. */
  lemma {:induction false} LeadingDigitsAtLeast(s: string, k: nat)
    requires k < |s| && !IsDigit(s[k])
    requires forall m :: 0 <= m < k ==> IsDigit(s[m])
    ensures LeadingDigits(s) == k
  {
    if k > 0 {
      LeadingDigitsAtLeast(s[1..], k - 1);
    }
  }

  /** `split('\n').filter(Boolean)` of the trimmed capture. */
  function StepLines(s: string): seq<string> {
    var text := match StepsCapture(s) case None => "" case Some(t) => Trim(t);
    NonEmpty(Split(text, '\n'))
  }

  /** `arrays[1]`: the following steps, each line with its numbering stripped. */
  function FollowingSteps(s: string): (r: seq<string>)
    ensures |r| == |StepLines(s)|
  {
    var lines := StepLines(s);
    seq(|lines|, i requires 0 <= i < |lines| => StripNumbering(lines[i]))
  }

  /** Without a `:` there are no steps. */
  lemma NoColonNoSteps(s: string)
    requires !Includes(s, Colon)
    ensures FollowingSteps(s) == []
  {
    assert Split("", '\n') == [""];
  }

  /** The steps come from the capture, which stops short of every marker:
      each step is a non-empty line of the trimmed capture with at most a
      numbered prefix removed, and it holds no line break. */
  lemma StepsFromCapture(s: string)
    requires Includes(s, Colon)
    ensures var c := IndexOf(s, Colon).value;
      var e := StepsEnd(s, c + 1);
      && StepsCapture(s) == Some(s[c + 1..e])
      && (forall m :: c + 1 <= m < e ==> !OccursAt(s, OpenArrows, m) && !OccursAt(s, FollowUpHeader, m)
                                         && !OccursAt(s, NextQuestionsHeader, m))
    ensures var lines := StepLines(s);
      forall i :: 0 <= i < |lines| ==>
        && lines[i] != "" && '\n' !in lines[i]
        && (FollowingSteps(s)[i] == lines[i] || NumberingPrefix(lines[i][..|lines[i]| - |FollowingSteps(s)[i]|]))
  {
    var c := IndexOf(s, Colon).value;
    var e := StepsEnd(s, c + 1);
    forall m | c + 1 <= m < e
      ensures !OccursAt(s, OpenArrows, m) && !OccursAt(s, FollowUpHeader, m) && !OccursAt(s, NextQuestionsHeader, m)
    {
      assert !StepsStop(s, m);
    }
    var text := Trim(StepsCapture(s).value);
    SplitJoin(text, '\n');
    var lines := StepLines(s);
    forall i | 0 <= i < |lines|
      ensures lines[i] != "" && '\n' !in lines[i]
      ensures FollowingSteps(s)[i] == lines[i] || NumberingPrefix(lines[i][..|lines[i]| - |FollowingSteps(s)[i]|])
    {
      assert lines[i] in Split(text, '\n');
      StripNumberingSpec(lines[i]);
    }
  }

  // ---------------------------------------------------------------------
  // Follow-up questions

  /** The first `<` or `>` at or after `k`, or `|s|`. */
  function AngleFrom(s: string, k: nat): (r: nat)
    requires k <= |s|
    ensures k <= r <= |s| && (r < |s| ==> s[r] == '<' || s[r] == '>')
    ensures forall m :: k <= m < r ==> s[m] != '<' && s[m] != '>'
    decreases |s| - k
  {
    if k == |s| || s[k] == '<' || s[k] == '>' then k else AngleFrom(s, k + 1)
  }

  /** The end of a `<<([^<>]+)>>` match starting at `p`, if one starts there:
      the greedy `[^<>]+` runs to the first angle bracket, which must open
      the closing `>>`. */
  function ArrowMatchAt(s: string, p: nat): (r: Option<nat>)
    requires p <= |s|
    ensures r.Some? ==> p + 5 <= r.value <= |s|
  {
    if !OccursAt(s, OpenArrows, p) then None
    else
      var q := AngleFrom(s, p + 2);
      if q > p + 2 && OccursAt(s, CloseArrows, q) then Some(q + 2) else None
  }

  /** A complete `<<inner>>` token with a non-empty inner text free of `<`
      and `>`. */
  predicate ArrowToken(t: string) {
    && |t| >= 5 && t[..2] == OpenArrows && t[|t| - 2..] == CloseArrows
    && forall m :: 2 <= m < |t| - 2 ==> t[m] != '<' && t[m] != '>'
  }

  /** The text between the arrows of a token. */
  function Inner(t: string): string {
    if |t| >= 4 then t[2..|t| - 2] else t
  }

  lemma ArrowMatchToken(s: string, p: nat)
    requires p <= |s| && ArrowMatchAt(s, p).Some?
    ensures ArrowToken(s[p..ArrowMatchAt(s, p).value])
  {
    var e := ArrowMatchAt(s, p).value;
    var t := s[p..e];
    assert t[..2] == s[p..p + 2];
    assert t[|t| - 2..] == s[e - 2..e];
    forall m | 2 <= m < |t| - 2
      ensures t[m] != '<' && t[m] != '>'
    {
      assert t[m] == s[p + m];
    }
  }

  /** The full matches of the global `<<([^<>]+)>>` from `i` on, leftmost
      first; the search resumes after each match. */
  function ArrowTokens(s: string, i: nat): seq<string>
    requires i <= |s|
    decreases |s| - i
  {
    if i == |s| then []
    else match ArrowMatchAt(s, i)
      case Some(e) => [s[i..e]] + ArrowTokens(s, e)
      case None => ArrowTokens(s, i + 1)
  }

  /** The scan from `i` lists `<<inner>>` tokens only, and every token at
      or after `i` is listed. */
  lemma {:induction false} ArrowTokensAreTokens(s: string, i: nat)
    requires i <= |s|
    ensures forall t :: t in ArrowTokens(s, i) ==> ArrowToken(t)
    ensures forall p, e :: i <= p <= e <= |s| && ArrowToken(s[p..e]) ==> s[p..e] in ArrowTokens(s, i)
    decreases |s| - i
  {
    if i < |s| {
      match ArrowMatchAt(s, i)
      case Some(e) =>
        ArrowMatchToken(s, i);
        ArrowTokensAreTokens(s, e);
      case None =>
        ArrowTokensAreTokens(s, i + 1);
    }
    forall p, e | i <= p <= e <= |s| && ArrowToken(s[p..e])
      ensures s[p..e] in ArrowTokens(s, i)
    {
      ArrowTokensComplete(s, i, p, e);
    }
  }

  /** The greedy `[^<>]+` stops at the first angle bracket. */
  lemma {:induction false} AngleFromStops(s: string, k: nat, j: nat)
    requires k <= j < |s| && (s[j] == '<' || s[j] == '>')
    requires forall m :: k <= m < j ==> s[m] != '<' && s[m] != '>'
    ensures AngleFrom(s, k) == j
    decreases j - k
  {
    if k < j {
      AngleFromStops(s, k + 1, j);
    }
  }

  /** Every token of the text is matched where it starts, and the match
      ends where the token does. */
  lemma TokenMatchesAt(s: string, p: nat, e: nat)
    requires p <= e <= |s| && ArrowToken(s[p..e])
    ensures ArrowMatchAt(s, p) == Some(e)
  {
    var t := s[p..e];
    assert t[..2] == s[p..p + 2];
    forall m | p + 2 <= m < e - 2
      ensures s[m] != '<' && s[m] != '>'
    {
      assert s[m] == t[m - p];
    }
    assert s[e - 2] == t[|t| - 2];
    AngleFromStops(s, p + 2, e - 2);
    assert s[e - 2..e] == t[|t| - 2..];
  }

  /** The global scan misses no token: every `<<inner>>` token at or after
      `i` is among the matches, since no match can overlap one. */
  lemma {:induction false} ArrowTokensComplete(s: string, i: nat, p: nat, e: nat)
    requires i <= p <= e <= |s| && ArrowToken(s[p..e])
    ensures s[p..e] in ArrowTokens(s, i)
    decreases |s| - i
  {
    if i == p {
      TokenMatchesAt(s, p, e);
    } else {
      match ArrowMatchAt(s, i)
      case None =>
        ArrowTokensComplete(s, i + 1, p, e);
      case Some(e') =>
        MatchEndsBeforeToken(s, i, p, e);
        ArrowTokensComplete(s, e', p, e);
    }
  }

  /** A match starting before a token ends before it: the token's `<<`
      cannot lie inside the match, which has no `<` after its own opening
      arrows. */
  lemma MatchEndsBeforeToken(s: string, i: nat, p: nat, e: nat)
    requires i < p <= e <= |s| && ArrowToken(s[p..e]) && ArrowMatchAt(s, i).Some?
    ensures ArrowMatchAt(s, i).value <= p
  {
    var e' := ArrowMatchAt(s, i).value;
    ArrowMatchToken(s, i);
    var t, u := s[p..e], s[i..e'];
    assert s[p] == t[0] == '<' && s[p + 1] == t[1] == '<';
    forall m | i + 2 <= m < e' - 2
      ensures s[m] != '<'
    {
      assert s[m] == u[m - i];
    }
    assert s[e' - 2] == u[|u| - 2] && s[e' - 1] == u[|u| - 1];
  }

  /** A text without `<` holds no token. */
  lemma {:induction false} NoAngleNoTokens(s: string, i: nat)
    requires i <= |s| && forall m :: i <= m < |s| ==> s[m] != '<'
    ensures ArrowTokens(s, i) == []
    decreases |s| - i
  {
    if i < |s| {
      assert i + |OpenArrows| > |s| || s[i..i + |OpenArrows|][0] != OpenArrows[0];
      NoAngleNoTokens(s, i + 1);
    }
  }

  /** The questions before `cleanUpFollowUp`: with the literal pattern
      string present, the match of `/Next Questions:(.*?)$/s` (the whole
      match from the header to the end, then its capture), or `[]` when it
      fails; otherwise the `<<...>>` tokens. */
  function FollowUpCandidates(s: string): seq<string> {
    if Includes(s, NextQuestionMatch) then
      match IndexOf(s, NextQuestionsCapital)
      case None => []
      case Some(p) => [s[p..], s[p + |NextQuestionsCapital|..]]
    else ArrowTokens(s, 0)
  }

  /** `followUp.replace('<<', '').replace('>>', '')` */
  function StripArrows(q: string): string {
    RemoveFirst(RemoveFirst(q, OpenArrows), CloseArrows)
  }

  /** `cleanUpFollowUp(list)`: when the first item starts with `<<`, every
      item loses its first `<<` and then its first `>>`. */
  function CleanUpFollowUp(list: seq<string>): (r: seq<string>)
    ensures |r| == |list|
    ensures list == [] || !StartsWith(list[0], OpenArrows) ==> r == list
  {
    if |list| > 0 && StartsWith(list[0], OpenArrows) then
      seq(|list|, i requires 0 <= i < |list| => StripArrows(list[i]))
    else list
  }

  /** Cleaning a token gives back its inner text. */
  lemma StripArrowsToken(t: string)
    requires ArrowToken(t)
    ensures StripArrows(t) == Inner(t)
  {
    var u := t[2..];
    RemoveLeadingArrows(t);
    forall m | 0 <= m < |u| - 2
      ensures u[m] != '>'
    {
      assert u[m] == t[m + 2];
    }
    assert u[|u| - 2..] == t[|t| - 2..];
    RemoveTrailingArrows(u);
    assert u[..|u| - 2] == Inner(t);
  }

  lemma RemoveLeadingArrows(t: string)
    requires ArrowToken(t)
    ensures RemoveFirst(t, OpenArrows) == t[2..]
  {
    assert OccursAt(t, OpenArrows, 0);
    FirstOccurrence(t, OpenArrows, 0);
  }

  /** The first `>>` of a text whose only `>` are its last two characters. */
  lemma RemoveTrailingArrows(u: string)
    requires |u| >= 2 && u[|u| - 2..] == CloseArrows
    requires forall m :: 0 <= m < |u| - 2 ==> u[m] != '>'
    ensures RemoveFirst(u, CloseArrows) == u[..|u| - 2]
  {
    var k := |u| - 2;
    assert OccursAt(u, CloseArrows, k);
    forall j | 0 <= j < k
      ensures !OccursAt(u, CloseArrows, j)
    {
      assert u[j..j + 2][0] == u[j];
    }
    FirstOccurrence(u, CloseArrows, k);
    assert u[..k] + u[k + 2..] == u[..k];
  }

  lemma FirstOccurrence(s: string, pat: string, k: nat)
    requires OccursAt(s, pat, k) && forall j :: 0 <= j < k ==> !OccursAt(s, pat, j)
    ensures IndexOf(s, pat) == Some(k)
  {
    var r := IndexOf(s, pat);
    assert r.Some? by {
      assert !(forall j :: 0 <= j ==> !OccursAt(s, pat, j));
    }
    assert !(r.value < k);
    assert !(r.value > k);
  }

  /** `cleanUpFollowUp` on a list of tokens lists their inner texts. */
  lemma CleanUpTokens(list: seq<string>)
    requires forall t :: t in list ==> ArrowToken(t)
    ensures CleanUpFollowUp(list) == seq(|list|, i requires 0 <= i < |list| => Inner(list[i]))
  {
    if |list| > 0 {
      assert list[0] in list;
      assert OccursAt(list[0], OpenArrows, 0);
    }
    forall i | 0 <= i < |list|
      ensures StripArrows(list[i]) == Inner(list[i])
    {
      StripArrowsToken(list[i]);
    }
  }

  /** `arrays[2]`: the follow-up questions. */
  function FollowUpQuestions(s: string): seq<string> {
    CleanUpFollowUp(FollowUpCandidates(s))
  }

  /** Without the literal pattern string, the follow-ups are the inner texts
      of the scan's matches, in order; those matches are tokens, and every
      `<<...>>` token of the text is one of them. */
  lemma FollowUpsAreTokens(s: string)
    requires !Includes(s, NextQuestionMatch)
    ensures var ts := ArrowTokens(s, 0);
      && FollowUpQuestions(s) == seq(|ts|, i requires 0 <= i < |ts| => Inner(ts[i]))
      && (forall t :: t in ts ==> ArrowToken(t))
      && forall p, e :: 0 <= p <= e <= |s| && ArrowToken(s[p..e]) ==> s[p..e] in ts
  {
    ArrowTokensAreTokens(s, 0);
    CleanUpTokens(ArrowTokens(s, 0));
  }

  /** With the literal pattern string present, the follow-ups do not come
      from the tokens: they are the `Next Questions:` match, unchanged, or
      nothing. */
  lemma FollowUpsWithPatternString(s: string)
    requires Includes(s, NextQuestionMatch)
    ensures !Includes(s, NextQuestionsCapital) ==> FollowUpQuestions(s) == []
    ensures Includes(s, NextQuestionsCapital) ==>
      var p := IndexOf(s, NextQuestionsCapital).value;
      FollowUpQuestions(s) == [s[p..], s[p + |NextQuestionsCapital|..]]
  {
    if Includes(s, NextQuestionsCapital) {
      var p := IndexOf(s, NextQuestionsCapital).value;
      var t := s[p..];
      assert t[0] == s[p..p + |NextQuestionsCapital|][0];
    }
  }

  // ---------------------------------------------------------------------
  // Display text

  /** `stepsIndex !== -1 ? inputText.substring(0, stepsIndex + 6) : inputText`,
      where the index is taken in the substituted text. */
  function DisplayText(inputText: string, replaced: string): string {
    match IndexOf(replaced, StepsMarker)
    case None => inputText
    case Some(i) => inputText[..if i + 6 <= |inputText| then i + 6 else |inputText|]
  }

  /** The display text is a prefix of the original input: the first
      min(|input|, i + 6) characters, `i` the index of `s:` in the
      substituted text, or all of it when `s:` is absent there. */
  lemma DisplayTextPrefix(inputText: string, replaced: string)
    ensures var d := DisplayText(inputText, replaced);
      && |d| <= |inputText| && d == inputText[..|d|]
      && (!Includes(replaced, StepsMarker) ==> d == inputText)
      && (Includes(replaced, StepsMarker) ==>
            var i := IndexOf(replaced, StepsMarker).value;
            |d| == if i + 6 <= |inputText| then i + 6 else |inputText|)
  {
  }

  // ---------------------------------------------------------------------
  // processText

  /** The substituted text and the numbered keys of `inputText`. */
  function Substituted(inputText: string): (string, seq<string>) {
    var keys := FirstSeen(Keys(Scan(inputText, 0)), ObjectPrototype);
    (Render(Scan(inputText, 0), keys, ObjectPrototype), keys)
  }

  /** What `processText(inputText, arrays)` computes. */
  function Analysis(inputText: string): ProcessedText {
    var (replaced, keys) := Substituted(inputText);
    ProcessedText(
      DisplayText(inputText, replaced),
      CitationList(keys),
      FollowingSteps(replaced),
      FollowUpQuestions(replaced))
  }

  /** `processText`: the replace pass with its callback, then the list and
      text computations on the substituted text. */
  method ProcessText(inputText: string) returns (r: ProcessedText)
    ensures r == Analysis(inputText)
  {
    var replacedText, citationKeys := SubstituteCitations(inputText, ObjectPrototype);
    var citations := CitationList(citationKeys);
    var cleanFollowingSteps := FollowingSteps(replacedText);
    var nextQuestions := FollowUpQuestions(replacedText);
    replacedText := DisplayText(inputText, replacedText);
    r := ProcessedText(replacedText, citations, cleanFollowingSteps, nextQuestions);
  }

  /** Rendering literal pieces only writes the text back. */
  lemma {:induction false} RenderLiterals(s: string, i: nat, order: seq<string>, inherited: map<string, string>)
    requires i <= |s| && forall m :: i <= m < |s| ==> s[m] != '['
    ensures Render(Scan(s, i), order, inherited) == s[i..]
  {
    NoBracketNoKeys(s, i);
    ScanCovers(s, i);
    RenderOwnText(Scan(s, i), order, inherited);
  }

  lemma {:induction false} RenderOwnText(ps: seq<Piece>, order: seq<string>, inherited: map<string, string>)
    requires forall p :: p in ps ==> p.Literal?
    ensures Render(ps, order, inherited) == PiecesText(ps)
  {
    if ps != [] {
      var init, last := ps[..|ps| - 1], ps[|ps| - 1];
      assert ps == init + [last];
      RenderOwnText(init, order, inherited);
      PiecesTextSnoc(init, last);
    }
  }

  lemma {:induction false} PiecesTextSnoc(ps: seq<Piece>, p: Piece)
    ensures PiecesText(ps + [p]) == PiecesText(ps) + PieceText(p)
  {
    if ps == [] {
      assert [] + [p] == [p];
      PiecesTextCons(p, []);
    } else {
      var h, t := ps[0], ps[1..];
      assert ps == [h] + t;
      AppendAssoc([h], t, [p]);
      PiecesTextCons(h, t + [p]);
      PiecesTextSnoc(t, p);
      PiecesTextCons(h, t);
      AppendAssoc(PieceText(h), PiecesText(t), PieceText(p));
    }
  }

  /** Without `[` there is no citation and the lists are taken from the
      input itself. */
  lemma NoBracketsNoCitations(inputText: string)
    requires forall m :: 0 <= m < |inputText| ==> inputText[m] != '['
    ensures Substituted(inputText) == (inputText, [])
    ensures var r := Analysis(inputText);
      && r.citations == []
      && r.followingSteps == FollowingSteps(inputText)
      && r.followupQuestions == FollowUpQuestions(inputText)
      && r.replacedText == DisplayText(inputText, inputText)
  {
    NoBracketNoKeys(inputText, 0);
    RenderLiterals(inputText, 0, [], ObjectPrototype);
    assert FirstSeen([], ObjectPrototype) == [];
  }

  /** The returned text is always a prefix of the input, cut 6 characters
      past the `s:` of the substituted text. */
  lemma ReplacedTextIsPrefix(inputText: string)
    ensures var d := Analysis(inputText).replacedText;
      |d| <= |inputText| && d == inputText[..|d|]
  {
    DisplayTextPrefix(inputText, Substituted(inputText).0);
  }

  /** The citation list has one entry per numbered key, `ref` counting
      from 1, and lists each numbered key once, in `Object.keys` order; when
      no key is an array index, entry `n` is the key whose markers in the
      text show `n`. */
  lemma CitationListSpec(inputText: string)
    ensures var keys, cs := Substituted(inputText).1, Analysis(inputText).citations;
      && |cs| == |keys| && CitationTexts(cs) == ObjectKeys(keys)
      && multiset(CitationTexts(cs)) == multiset(keys)
      && (forall n :: 0 <= n < |cs| ==> cs[n].ref == n + 1)
      && ((forall k :: k in keys ==> !IsArrayIndex(k)) ==>
            forall n :: 0 <= n < |cs| ==> MarkerFor(cs[n].text, keys, ObjectPrototype) == CitationMarker(DecimalString(n + 1)))
  {
    var keys := Substituted(inputText).1;
    assert Analysis(inputText).citations == CitationList(keys);
    CitationListMarkers(keys, ObjectPrototype);
  }

  /** The numbered keys are the distinct trimmed captures that are not
      inherited names, in order of first appearance. */
  lemma NumberedKeysSpec(inputText: string)
    ensures var keys, found := Substituted(inputText).1, Keys(Scan(inputText, 0));
      && Distinct(keys)
      && (forall k :: k in keys <==> k in found && k !in ObjectPrototype)
      && InFirstAppearanceOrder(found, keys)
  {
    FirstSeenOrder(Keys(Scan(inputText, 0)), ObjectPrototype);
  }

  /** When no citation key is an array index, the list `processText`
      returns is the list in numbering order. */
  lemma CitationsInNumberingOrder(inputText: string)
    requires forall k :: k in Substituted(inputText).1 ==> !IsArrayIndex(k)
    ensures Analysis(inputText).citations == CitationListInOrder(Substituted(inputText).1)
  {
    CitationListWithoutIndexKeys(Substituted(inputText).1);
  }
}
