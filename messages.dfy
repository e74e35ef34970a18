/** The chat message record the widget passes between its hooks and
    components, the error class of src/utils/index.js, and the two list and
    string helpers of that file that work on messages: `chatEntryToString`
    and `newListWithEntryAtIndex`. */
module Messages {
  import opened Wrappers
  import opened JsText

  /** One text segment of a message: its display string and the numbered
      "following steps" extracted from it. */
  datatype TextEntry = TextEntry(value: string, followingSteps: seq<string>)

  /** One citation of an answer: `ref` is the number shown in the citation
      list, `text` the trimmed content of a `[...]` span. */
  datatype Citation = Citation(ref: nat, text: string)

  /** The user-visible error attached to a failed answer. */
  datatype ChatError = ChatError(message: string)

  /** A turn of the conversation. `id` stands for the value of
      `crypto.randomUUID()`, `timestamp` for the opaque result of
      `getTimestamp()`; `thoughts` and `dataPoints` are `None` where the
      source leaves them `undefined`. */
  datatype ChatMessage = ChatMessage(
    id: nat,
    text: seq<TextEntry>,
    followupQuestions: seq<string>,
    citations: seq<Citation>,
    timestamp: string,
    isUserMessage: bool,
    thoughts: Option<string>,
    dataPoints: Option<seq<string>>,
    error: Option<ChatError>)

  /** `class ChatResponseError extends Error`: an HTTP failure carrying the
      response's status text as `message` and its status as `code`. */
  datatype ChatResponseError = ChatResponseError(message: string, code: int)

  // ---------------------------------------------------------------------
  // newListWithEntryAtIndex

  /** `[...list.slice(0, index), entry, ...list.slice(index + 1)]`: a new
      list; the argument is a value and is not changed. */
  function NewListWithEntryAtIndex<T>(list: seq<T>, index: int, entry: T): (r: seq<T>)
    ensures 0 <= index < |list| ==>
      && |r| == |list| && r[index] == entry
      && (forall j :: 0 <= j < |list| && j != index ==> r[j] == list[j])
    ensures index >= |list| ==> r == list + [entry]
  {
    Slice(list, 0, index) + [entry] + SliceFrom(list, index + 1)
  }

  // ---------------------------------------------------------------------
  // chatEntryToString

  /** The steps of a text entry written `1.` + s1, `2.` + s2, ... one per line. */
  function NumberedSteps(steps: seq<string>): string {
    Join(seq(|steps|, i requires 0 <= i < |steps| => DecimalString(i + 1) + "." + steps[i]), "\n")
  }

  /** One text entry as plain text: its value, a blank line, its steps. */
  function EntryText(e: TextEntry): string {
    e.value + "\n\n" + NumberedSteps(e.followingSteps)
  }

  const SupOpenTag: string := "<sup"
  const SupCloseTag: string := "</sup>"

  /** How the global replace of `/<sup[^>]*>(.*?)<\/sup>/g` reads the text
      from index `i`: a span it removes, or a character it keeps. */
  datatype SupSpan = Kept(c: char) | Removed(span: string)

  function SpanText(p: SupSpan): string {
    match p
    case Kept(c) => [c]
    case Removed(t) => t
  }

  function SpansText(ps: seq<SupSpan>): string {
    if ps == [] then "" else SpanText(ps[0]) + SpansText(ps[1..])
  }

  function KeptText(ps: seq<SupSpan>): string {
    if ps == [] then ""
    else (if ps[0].Kept? then [ps[0].c] else "") + KeptText(ps[1..])
  }

  /** The lazy `(.*?)<\/sup>` part: the first `</sup>` at or after `i`,
      provided no line terminator comes before it. */
  function SupCloseFrom(s: string, i: nat): (r: Option<nat>)
    ensures r.Some? ==> i <= r.value && OccursAt(s, SupCloseTag, r.value)
    ensures r.Some? ==> forall k :: i <= k < r.value ==> !IsLineTerminator(s[k]) && !OccursAt(s, SupCloseTag, k)
    decreases |s| - i
  {
    if OccursAt(s, SupCloseTag, i) then Some(i)
    else if i >= |s| || IsLineTerminator(s[i]) then None
    else SupCloseFrom(s, i + 1)
  }

  /** The end of the `<sup ...>...</sup>` match that starts at `p`, if any:
      `<sup`, everything up to the first `>`, then the lazy part. */
  function SupMatchEnd(s: string, p: nat): (r: Option<nat>)
    ensures r.Some? ==> p + 10 <= r.value <= |s|
    ensures r.Some? ==> OccursAt(s, SupOpenTag, p) && OccursAt(s, SupCloseTag, r.value - 6)
  {
    if !OccursAt(s, SupOpenTag, p) then None
    else match IndexOfFrom(s, ">", p + 4)
      case None => None
      case Some(q) =>
        match SupCloseFrom(s, q + 1)
        case None => None
        case Some(e) => Some(e + 6)
  }

  /** A whole `<sup...>...</sup>` element. */
  predicate IsSupElement(t: string) {
    |t| >= 10 && t[..4] == SupOpenTag && t[|t| - 6..] == SupCloseTag
  }

  function SupSpans(s: string, i: nat): seq<SupSpan>
    requires i <= |s|
    decreases |s| - i
  {
    if i == |s| then []
    else match SupMatchEnd(s, i)
      case Some(e) => [Removed(s[i..e])] + SupSpans(s, e)
      case None => [Kept(s[i])] + SupSpans(s, i + 1)
  }

  /** Reading the spans back gives the text: nothing is lost or reordered. */
  lemma {:induction false} SupSpansCover(s: string, i: nat)
    requires i <= |s|
    ensures SpansText(SupSpans(s, i)) == s[i..]
    decreases |s| - i
  {
    if i < |s| {
      match SupMatchEnd(s, i)
      case Some(e) =>
        SupSpansCover(s, e);
        CoverStep(s, i, e, Removed(s[i..e]), SupSpans(s, e));
      case None =>
        SupSpansCover(s, i + 1);
        CoverStep(s, i, i + 1, Kept(s[i]), SupSpans(s, i + 1));
    }
  }

  /** A span covering `s[i..e]` before spans covering `s[e..]`. */
  lemma CoverStep(s: string, i: nat, e: nat, p: SupSpan, rest: seq<SupSpan>)
    requires i <= e <= |s| && SpanText(p) == s[i..e] && SpansText(rest) == s[e..]
    ensures SpansText([p] + rest) == s[i..]
  {
    assert ([p] + rest)[1..] == rest;
    assert s[i..] == s[i..e] + s[e..];
  }

  /** Every span the replace removes is one whole `<sup...>...</sup>`
      element. */
  lemma {:induction false} RemovedSpansAreElements(s: string, i: nat)
    requires i <= |s|
    ensures forall p :: p in SupSpans(s, i) && p.Removed? ==> IsSupElement(p.span)
    decreases |s| - i
  {
    if i < |s| {
      match SupMatchEnd(s, i)
      case Some(e) =>
        RemovedSpansAreElements(s, e);
        SupMatchIsElement(s, i);
        ElementsStep(Removed(s[i..e]), SupSpans(s, e));
      case None =>
        RemovedSpansAreElements(s, i + 1);
        ElementsStep(Kept(s[i]), SupSpans(s, i + 1));
    }
  }

  lemma SupMatchIsElement(s: string, i: nat)
    requires i <= |s| && SupMatchEnd(s, i).Some?
    ensures IsSupElement(s[i..SupMatchEnd(s, i).value])
  {
    var e := SupMatchEnd(s, i).value;
    var t := s[i..e];
    assert t[..4] == s[i..i + 4];
    assert t[|t| - 6..] == s[e - 6..e];
  }

  lemma ElementsStep(p: SupSpan, rest: seq<SupSpan>)
    requires p.Removed? ==> IsSupElement(p.span)
    requires forall q :: q in rest && q.Removed? ==> IsSupElement(q.span)
    ensures forall q :: q in [p] + rest && q.Removed? ==> IsSupElement(q.span)
  {
  }

  /** Where each span of the scan from `i` starts. */
  function SpanStarts(s: string, i: nat): seq<nat>
    requires i <= |s|
    decreases |s| - i
  {
    if i == |s| then []
    else match SupMatchEnd(s, i)
      case Some(e) => [i] + SpanStarts(s, e)
      case None => [i] + SpanStarts(s, i + 1)
  }

  /** The replace misses no element: a character is kept exactly where no
      `<sup...>...</sup>` match starts, and a span is removed exactly where
      one does, as far as that match reaches. */
  lemma {:induction false} SupSpansLeftmost(s: string, i: nat)
    requires i <= |s|
    ensures var ps, st := SupSpans(s, i), SpanStarts(s, i);
      && |st| == |ps|
      && forall j :: 0 <= j < |ps| ==> i <= st[j] && SpanReadAt(s, st[j], ps[j])
    decreases |s| - i
  {
    if i < |s| {
      match SupMatchEnd(s, i)
      case Some(e) =>
        SupSpansLeftmost(s, e);
        LeftmostStep((at: nat, q: SupSpan) => SpanReadAt(s, at, q), i, Removed(s[i..e]), SupSpans(s, e), SpanStarts(s, e));
      case None =>
        SupSpansLeftmost(s, i + 1);
        LeftmostStep((at: nat, q: SupSpan) => SpanReadAt(s, at, q), i, Kept(s[i]), SupSpans(s, i + 1), SpanStarts(s, i + 1));
    }
  }

  /** The span `p` is what the replace reads at `at`: the kept character
      there when no match starts at `at`, otherwise the whole match. */
  ghost predicate SpanReadAt(s: string, at: nat, p: SupSpan) {
    && at < |s|
    && (p.Kept? <==> SupMatchEnd(s, at).None?)
    && (p.Kept? ==> p.c == s[at])
    && (p.Removed? ==> SupMatchEnd(s, at) == Some(at + |p.span|))
  }

  /** A fact about each (start, span) pair survives putting one pair in
      front of pairs that start after it. */
  lemma LeftmostStep(read: (nat, SupSpan) -> bool, i: nat, p: SupSpan, rest: seq<SupSpan>, starts: seq<nat>)
    requires read(i, p) && |starts| == |rest|
    requires forall j :: 0 <= j < |rest| ==> i < starts[j] && read(starts[j], rest[j])
    ensures var ps, st := [p] + rest, [i] + starts;
      && |st| == |ps|
      && forall j :: 0 <= j < |ps| ==> i <= st[j] && read(st[j], ps[j])
  {
    var ps, st := [p] + rest, [i] + starts;
    forall j | 0 <= j < |ps|
      ensures i <= st[j] && read(st[j], ps[j])
    {
      if j == 0 {
        assert ps[j] == p && st[j] == i;
      } else {
        assert ps[j] == rest[j - 1] && st[j] == starts[j - 1];
      }
    }
  }

  /** `text.replaceAll(/<sup[^>]*>(.*?)<\/sup>/g, '')` */
  function RemoveSupElements(s: string): string {
    KeptText(SupSpans(s, 0))
  }

  /** Text without `<sup` passes through the replace unchanged. */
  lemma {:induction false} NoSupUnchanged(s: string, i: nat)
    requires i <= |s|
    requires !Includes(s, SupOpenTag)
    ensures KeptText(SupSpans(s, i)) == s[i..]
    decreases |s| - i
  {
    if i < |s| {
      assert !OccursAt(s, SupOpenTag, i);
      NoSupUnchanged(s, i + 1);
      assert s[i..] == [s[i]] + s[i + 1..];
    }
  }

  /** `chatEntryToString(entry)`: every text entry as plain text, separated
      by blank lines, with the `<sup>` citation markers stripped. */
  function ChatEntryToString(entry: ChatMessage): string {
    RemoveSupElements(Join(seq(|entry.text|, i requires 0 <= i < |entry.text| => EntryText(entry.text[i])), "\n\n"))
  }

  /** A message whose text holds no `<sup` serialises to exactly its
      entries, each followed by its numbered steps. */
  lemma ChatEntryToStringPlain(entry: ChatMessage)
    requires var joined := Join(seq(|entry.text|, i requires 0 <= i < |entry.text| => EntryText(entry.text[i])), "\n\n");
      !Includes(joined, SupOpenTag)
    ensures ChatEntryToString(entry) == Join(seq(|entry.text|, i requires 0 <= i < |entry.text| => EntryText(entry.text[i])), "\n\n")
  {
    var joined := Join(seq(|entry.text|, i requires 0 <= i < |entry.text| => EntryText(entry.text[i])), "\n\n");
    NoSupUnchanged(joined, 0);
  }
}
