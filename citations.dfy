/** The citation pass of `processText` (src/utils/index.js): the global
    replace of `/\[(.*?)]/g`, whose callback numbers each distinct trimmed
    capture in a plain object `citation` with a running `referenceCounter`,
    and the `Object.keys(citation)` listing that becomes the citation list. */
module Citations {
  import opened Wrappers
  import opened JsText
  import opened Messages

  /** How the global replace reads the input: a character it copies, or a
      `[...]` match with its capture. */
  datatype Piece = Literal(c: char) | Bracketed(capture: string)

  const OpenBracket: string := "["
  const CloseBracketText: string := "]"

  function PieceText(p: Piece): string {
    match p
    case Literal(c) => [c]
    case Bracketed(t) => OpenBracket + t + CloseBracketText
  }

  function PiecesText(ps: seq<Piece>): string {
    if ps == [] then "" else PieceText(ps[0]) + PiecesText(ps[1..])
  }

  lemma PiecesTextCons(p: Piece, rest: seq<Piece>)
    ensures PiecesText([p] + rest) == PieceText(p) + PiecesText(rest)
  {
    assert ([p] + rest)[1..] == rest;
  }

  /** The lazy `(.*?)]` part: the first `]` at or after `i`, provided no line
      terminator (which `.` does not match) comes before it. */
  function CloseBracket(s: string, i: nat): (r: Option<nat>)
    ensures r.Some? ==> i <= r.value < |s| && s[r.value] == ']'
    ensures r.Some? ==> forall k :: i <= k < r.value ==> s[k] != ']' && !IsLineTerminator(s[k])
    ensures r.None? ==> forall k :: i <= k < |s| && s[k] == ']' ==> exists m :: i <= m < k && IsLineTerminator(s[m])
    decreases |s| - i
  {
    if i >= |s| || IsLineTerminator(s[i]) then None
    else if s[i] == ']' then Some(i)
    else CloseBracket(s, i + 1)
  }

  /** What the replace reads at index `i`, and the index after it: a match
      when `[` starts one there, otherwise the character. */
  function NextPiece(s: string, i: nat): (r: (Piece, nat))
    requires i < |s|
    ensures i < r.1 <= |s|
  {
    if s[i] == '[' && CloseBracket(s, i + 1).Some? then
      var j := CloseBracket(s, i + 1).value;
      (Bracketed(s[i + 1..j]), j + 1)
    else (Literal(s[i]), i + 1)
  }

  /** The matches of `/\[(.*?)]/g` from index `i` on, leftmost first, each
      search resuming after the previous match. */
  function Scan(s: string, i: nat): seq<Piece>
    requires i <= |s|
    decreases |s| - i
  {
    if i == |s| then [] else [NextPiece(s, i).0] + Scan(s, NextPiece(s, i).1)
  }

  lemma NextPieceText(s: string, i: nat)
    requires i < |s|
    ensures s[i..] == PieceText(NextPiece(s, i).0) + s[NextPiece(s, i).1..]
  {
    if s[i] == '[' && CloseBracket(s, i + 1).Some? {
      var j := CloseBracket(s, i + 1).value;
      assert OpenBracket == [s[i]] && CloseBracketText == [s[j]];
      assert s[i..] == [s[i]] + s[i + 1..j] + [s[j]] + s[j + 1..];
    } else {
      assert s[i..] == [s[i]] + s[i + 1..];
    }
  }

  /** Writing the pieces back gives the input: the scan loses nothing. */
  lemma {:induction false} ScanCovers(s: string, i: nat)
    requires i <= |s|
    ensures PiecesText(Scan(s, i)) == s[i..]
    decreases |s| - i
  {
    if i < |s| {
      var (p, n) := NextPiece(s, i);
      ScanCovers(s, n);
      PiecesTextCons(p, Scan(s, n));
      NextPieceText(s, i);
    }
  }

  /** A capture never holds `]` or a line terminator. */
  predicate SingleLine(t: string) {
    forall m :: 0 <= m < |t| ==> t[m] != ']' && !IsLineTerminator(t[m])
  }

  lemma NextPieceSingleLine(s: string, i: nat)
    requires i < |s|
    ensures NextPiece(s, i).0.Bracketed? ==> SingleLine(NextPiece(s, i).0.capture)
  {
    if s[i] == '[' && CloseBracket(s, i + 1).Some? {
      var j := CloseBracket(s, i + 1).value;
      var t := s[i + 1..j];
      forall m | 0 <= m < |t|
        ensures t[m] != ']' && !IsLineTerminator(t[m])
      {
        assert t[m] == s[i + 1 + m];
      }
    }
  }

  lemma {:induction false} CapturesAreSingleLine(s: string, i: nat)
    requires i <= |s|
    ensures forall p :: p in Scan(s, i) && p.Bracketed? ==> SingleLine(p.capture)
    decreases |s| - i
  {
    if i < |s| {
      NextPieceSingleLine(s, i);
      CapturesAreSingleLine(s, NextPiece(s, i).1);
    }
  }

  // ---------------------------------------------------------------------
  // The `citation` object and its numbering

  /** The citation key of a piece: the trimmed capture (`capture.trim()`). */
  function KeyOf(p: Piece): seq<string> {
    match p
    case Literal(_) => []
    case Bracketed(t) => [Trim(t)]
  }

  /** The keys the callback sees, in order, repeats included. */
  function Keys(ps: seq<Piece>): seq<string> {
    if ps == [] then [] else Keys(ps[..|ps| - 1]) + KeyOf(ps[|ps| - 1])
  }

  lemma KeysAppend(ps: seq<Piece>, p: Piece)
    ensures Keys(ps + [p]) == Keys(ps) + KeyOf(p)
  {
    assert (ps + [p])[..|ps|] == ps;
  }

  lemma {:induction false} KeysCons(p: Piece, ps: seq<Piece>)
    ensures Keys([p] + ps) == KeyOf(p) + Keys(ps)
    decreases |ps|
  {
    if ps == [] {
      assert [p] + ps == [] + [p];
      KeysAppend([], p);
    } else {
      var init, last := ps[..|ps| - 1], ps[|ps| - 1];
      assert ps == init + [last];
      AppendAssoc([p], init, [last]);
      KeysAppend([p] + init, last);
      KeysCons(p, init);
      KeysAppend(init, last);
      AppendAssoc(KeyOf(p), Keys(init), KeyOf(last));
    }
  }

  /** An input without `[` has no match, hence no citation key at all. */
  lemma {:induction false} NoBracketNoKeys(s: string, i: nat)
    requires i <= |s|
    requires forall k :: i <= k < |s| ==> s[k] != '['
    ensures Keys(Scan(s, i)) == []
    ensures forall p :: p in Scan(s, i) ==> p.Literal?
    decreases |s| - i
  {
    if i < |s| {
      NoBracketNoKeys(s, i + 1);
      assert NextPiece(s, i) == (Literal(s[i]), i + 1);
      var rest := Scan(s, i + 1);
      assert Scan(s, i) == [Literal(s[i])] + rest;
      KeysCons(Literal(s[i]), rest);
      AppendEmpty(Keys(rest));
    }
  }

  /** The names a plain JavaScript object inherits from `Object.prototype`,
      each with the string `${citation[name]}` produces for it (the engine's
      rendering of the inherited value). For these names `citation[name]` is
      truthy before any assignment, so they are never numbered. The
      operations below take this table as their `inherited` parameter. */
  const ObjectPrototype: map<string, string> := map[
    "constructor" := "function Object() { [native code] }",
    "__defineGetter__" := "function __defineGetter__() { [native code] }",
    "__defineSetter__" := "function __defineSetter__() { [native code] }",
    "hasOwnProperty" := "function hasOwnProperty() { [native code] }",
    "__lookupGetter__" := "function __lookupGetter__() { [native code] }",
    "__lookupSetter__" := "function __lookupSetter__() { [native code] }",
    "isPrototypeOf" := "function isPrototypeOf() { [native code] }",
    "propertyIsEnumerable" := "function propertyIsEnumerable() { [native code] }",
    "toString" := "function toString() { [native code] }",
    "valueOf" := "function valueOf() { [native code] }",
    "__proto__" := "[object Object]",
    "toLocaleString" := "function toLocaleString() { [native code] }"
  ]

  predicate Distinct(d: seq<string>) {
    forall i, j :: 0 <= i < j < |d| ==> d[i] != d[j]
  }

  /** `if (!citation[key]) citation[key] = referenceCounter++`, on the list of
      numbered keys: a key is numbered unless it already is or is inherited. */
  function NumberKey(order: seq<string>, k: string, inherited: map<string, string>): seq<string> {
    if k in order || k in inherited then order else order + [k]
  }

  /** The keys that get a number, in the order they get it. */
  function FirstSeen(keys: seq<string>, inherited: map<string, string>): (d: seq<string>)
    ensures Distinct(d)
    ensures forall x :: x in d <==> x in keys && x !in inherited
  {
    if keys == [] then []
    else
      assert keys == keys[..|keys| - 1] + [keys[|keys| - 1]];
      NumberKey(FirstSeen(keys[..|keys| - 1], inherited), keys[|keys| - 1], inherited)
  }

  lemma FirstSeenAppend(keys: seq<string>, k: string, inherited: map<string, string>)
    ensures FirstSeen(keys + [k], inherited) == NumberKey(FirstSeen(keys, inherited), k, inherited)
  {
    assert (keys + [k])[..|keys|] == keys;
  }

  /** The index of the first occurrence of `x` in `s`, `|s|` if there is none. */
  function Position(s: seq<string>, x: string): (r: nat)
    ensures r <= |s|
    ensures x in s ==> r < |s| && s[r] == x
    ensures forall j :: 0 <= j < r ==> s[j] != x
  {
    if s == [] then 0 else if s[0] == x then 0 else 1 + Position(s[1..], x)
  }

  lemma PositionInDistinct(d: seq<string>, n: nat)
    requires Distinct(d) && n < |d|
    ensures Position(d, d[n]) == n
  {
  }

  lemma PositionAppend(d: seq<string>, k: string, x: string)
    requires x in d
    ensures Position(d + [k], x) == Position(d, x)
  {
    var p := Position(d, x);
    assert (d + [k])[p] == x;
    assert forall j :: 0 <= j < p ==> (d + [k])[j] == d[j];
  }

  lemma PositionOfNew(d: seq<string>, k: string)
    requires k !in d
    ensures Position(d + [k], k) == |d|
  {
    assert (d + [k])[|d|] == k;
  }

  /** Numbering in first-appearance order: key `d[i]` first occurs among the
      keys before key `d[j]` does, for every `i < j`. */
  predicate InFirstAppearanceOrder(keys: seq<string>, d: seq<string>) {
    forall i, j :: 0 <= i < j < |d| ==> Position(keys, d[i]) < Position(keys, d[j])
  }

  lemma {:induction false} FirstSeenOrder(keys: seq<string>, inherited: map<string, string>)
    ensures InFirstAppearanceOrder(keys, FirstSeen(keys, inherited))
  {
    if keys != [] {
      var init, k := keys[..|keys| - 1], keys[|keys| - 1];
      assert keys == init + [k];
      FirstSeenOrder(init, inherited);
      FirstSeenAppend(init, k, inherited);
      var d0 := FirstSeen(init, inherited);
      var d := FirstSeen(keys, inherited);
      forall i | 0 <= i < |d0|
        ensures Position(keys, d0[i]) == Position(init, d0[i]) < |init|
      {
        PositionAppend(init, k, d0[i]);
      }
      if !(k in d0 || k in inherited) {
        PositionOfNew(init, k);
      }
      forall i, j | 0 <= i < j < |d|
        ensures Position(keys, d[i]) < Position(keys, d[j])
      {
        assert d[i] == d0[i];
        if j < |d0| {
          assert d[j] == d0[j];
        }
      }
    }
  }

  /** The numbers the `citation` object holds once the keys in `d` are
      numbered in order: `d[n]` holds `n + 1`. */
  function Numbering(d: seq<string>): map<string, nat> {
    if d == [] then map[] else Numbering(d[..|d| - 1])[d[|d| - 1] := |d|]
  }

  lemma {:induction false} NumberingLookup(d: seq<string>, x: string)
    requires Distinct(d)
    ensures x in Numbering(d) <==> x in d
    ensures x in d ==> Numbering(d)[x] == Position(d, x) + 1
  {
    if d != [] {
      var init, k := d[..|d| - 1], d[|d| - 1];
      assert d == init + [k];
      NumberingLookup(init, x);
      if x in init {
        PositionAppend(init, k, x);
      } else if x == k {
        PositionOfNew(init, k);
      }
    }
  }

  // ---------------------------------------------------------------------
  // The replaced text

  const CitationMarkerOpen: string := "<sup class=\"citation\">"

  /** `<sup class="citation">${shown}</sup>` */
  function CitationMarker(shown: string): string {
    CitationMarkerOpen + shown + SupCloseTag
  }

  /** What the callback returns for `key` once the keys are numbered in
      `order`: the marker of its number, or of the inherited value. */
  function MarkerFor(key: string, order: seq<string>, inherited: map<string, string>): string {
    if key in inherited then CitationMarker(inherited[key])
    else CitationMarker(DecimalString(Position(order, key) + 1))
  }

  function PieceOutput(p: Piece, order: seq<string>, inherited: map<string, string>): string {
    match p
    case Literal(c) => [c]
    case Bracketed(t) => MarkerFor(Trim(t), order, inherited)
  }

  /** The replaced text: literals copied, every match (repeats included)
      replaced by the marker of its key's number. */
  function Render(ps: seq<Piece>, order: seq<string>, inherited: map<string, string>): string {
    if ps == [] then ""
    else Render(ps[..|ps| - 1], order, inherited) + PieceOutput(ps[|ps| - 1], order, inherited)
  }

  lemma RenderAppend(ps: seq<Piece>, p: Piece, order: seq<string>, inherited: map<string, string>)
    ensures Render(ps + [p], order, inherited) == Render(ps, order, inherited) + PieceOutput(p, order, inherited)
  {
    assert (ps + [p])[..|ps|] == ps;
  }

  /** Numbering one more key leaves the text already rendered alone. */
  lemma {:induction false} RenderExtend(ps: seq<Piece>, order: seq<string>, k: string, inherited: map<string, string>)
    requires forall x :: x in Keys(ps) ==> x in order || x in inherited
    ensures Render(ps, order + [k], inherited) == Render(ps, order, inherited)
  {
    if ps != [] {
      var init, last := ps[..|ps| - 1], ps[|ps| - 1];
      assert ps == init + [last];
      KeysAppend(init, last);
      RenderExtend(init, order, k, inherited);
      if last.Bracketed? && Trim(last.capture) !in inherited {
        PositionAppend(order, k, Trim(last.capture));
      }
    }
  }

  /** The numbered keys after one piece more. */
  function Advance(order: seq<string>, p: Piece, inherited: map<string, string>): seq<string> {
    match p
    case Literal(_) => order
    case Bracketed(t) => NumberKey(order, Trim(t), inherited)
  }

  /** One piece more: how the numbered keys and the rendered text grow. */
  lemma PieceStep(done: seq<Piece>, p: Piece, inherited: map<string, string>)
    ensures var d := FirstSeen(Keys(done), inherited);
      var d' := FirstSeen(Keys(done + [p]), inherited);
      && d' == Advance(d, p, inherited)
      && Render(done + [p], d', inherited) == Render(done, d, inherited) + PieceOutput(p, d', inherited)
  {
    var d := FirstSeen(Keys(done), inherited);
    KeysAppend(done, p);
    var d' := FirstSeen(Keys(done + [p]), inherited);
    RenderAppend(done, p, d', inherited);
    match p
    case Literal(_) =>
      assert Keys(done) + KeyOf(p) == Keys(done);
    case Bracketed(t) =>
      FirstSeenAppend(Keys(done), Trim(t), inherited);
      if d' != d {
        RenderExtend(done, d, Trim(t), inherited);
      }
  }

  /** The rest of the pass from index `i` on, once the keys in `order` are
      numbered and `out` is written: the text and keys it ends with. */
  function ReplaceFrom(s: string, i: nat, order: seq<string>, out: string, inherited: map<string, string>)
    : (string, seq<string>)
    requires i <= |s|
    decreases |s| - i
  {
    if i == |s| then (out, order)
    else
      var next := NextPiece(s, i);
      var order' := Advance(order, next.0, inherited);
      ReplaceFrom(s, next.1, order', out + PieceOutput(next.0, order', inherited), inherited)
  }

  lemma ReplaceFromStep(s: string, i: nat, order: seq<string>, out: string, inherited: map<string, string>)
    requires i < |s|
    ensures var next := NextPiece(s, i);
      var order' := Advance(order, next.0, inherited);
      ReplaceFrom(s, i, order, out, inherited)
        == ReplaceFrom(s, next.1, order', out + PieceOutput(next.0, order', inherited), inherited)
  {
  }

  /** Resuming the pass after the pieces `done` ends where rendering all the
      pieces, `done` and the rest of the scan, ends. */
  lemma {:induction false} ReplaceFromRenders(s: string, i: nat, done: seq<Piece>, inherited: map<string, string>)
    requires i <= |s|
    ensures var all := done + Scan(s, i);
      var d0, d := FirstSeen(Keys(done), inherited), FirstSeen(Keys(all), inherited);
      ReplaceFrom(s, i, d0, Render(done, d0, inherited), inherited) == (Render(all, d, inherited), d)
    decreases |s| - i
  {
    if i == |s| {
      AppendEmpty(done);
    } else {
      var (p, n) := NextPiece(s, i);
      PieceStep(done, p, inherited);
      ReplaceFromRenders(s, n, done + [p], inherited);
      assert Scan(s, i) == [p] + Scan(s, n);
      AppendAssoc(done, [p], Scan(s, n));
    }
  }

  /** The whole pass, from the start, ends with the rendered scan and its
      numbered keys. */
  lemma ReplaceFromStart(s: string, inherited: map<string, string>)
    ensures var d := FirstSeen(Keys(Scan(s, 0)), inherited);
      ReplaceFrom(s, 0, [], "", inherited) == (Render(Scan(s, 0), d, inherited), d)
  {
    ReplaceFromRenders(s, 0, [], inherited);
    AppendEmpty(Scan(s, 0));
    assert Keys([]) == [] && FirstSeen([], inherited) == [] && Render([], [], inherited) == "";
  }

  /** What the callback's state holds between matches: `citation` numbers
      the keys in `citationKeys` in order, no inherited name among them,
      and `referenceCounter` is the next number. */
  predicate NumberingState(citation: map<string, nat>, citationKeys: seq<string>, referenceCounter: nat,
                           inherited: map<string, string>)
  {
    && Distinct(citationKeys) && (forall x :: x in citationKeys ==> x !in inherited)
    && citation == Numbering(citationKeys) && referenceCounter == |citationKeys| + 1
  }

  /** The replace callback for one match with key `key`: a key seen for the
      first time that is not inherited gets `referenceCounter` (which then
      moves on), and the marker shows the key's number, or the inherited
      value for an inherited name. */
  method NumberCitation(citation: map<string, nat>, citationKeys: seq<string>, referenceCounter: nat,
                        key: string, inherited: map<string, string>)
    returns (citation': map<string, nat>, citationKeys': seq<string>, referenceCounter': nat, shown: string)
    requires NumberingState(citation, citationKeys, referenceCounter, inherited)
    ensures citationKeys' == NumberKey(citationKeys, key, inherited)
    ensures NumberingState(citation', citationKeys', referenceCounter', inherited)
    ensures CitationMarker(shown) == MarkerFor(key, citationKeys', inherited)
  {
    NumberingLookup(citationKeys, key);
    citation', citationKeys', referenceCounter' := citation, citationKeys, referenceCounter;
    if key !in citation && key !in inherited {
      PositionOfNew(citationKeys, key);
      assert (citationKeys + [key])[..|citationKeys|] == citationKeys;
      citation' := citation[key := referenceCounter];
      citationKeys' := citationKeys + [key];
      referenceCounter' := referenceCounter + 1;
    }
    if key in inherited {
      shown := inherited[key];
    } else {
      shown := DecimalString(citation'[key]);
    }
  }

  /** One step of the replace at index `i`: the next match goes through the
      callback and its marker is written, or the next character is copied. */
  method ConsumePiece(inputText: string, i: nat, citation: map<string, nat>, citationKeys: seq<string>,
                      referenceCounter: nat, replacedText: string, inherited: map<string, string>)
    returns (i': nat, citation': map<string, nat>, citationKeys': seq<string>, referenceCounter': nat,
             replacedText': string)
    requires i < |inputText|
    requires NumberingState(citation, citationKeys, referenceCounter, inherited)
    ensures var next := NextPiece(inputText, i);
      && i' == next.1 && citationKeys' == Advance(citationKeys, next.0, inherited)
      && replacedText' == replacedText + PieceOutput(next.0, citationKeys', inherited)
    ensures NumberingState(citation', citationKeys', referenceCounter', inherited)
  {
    if inputText[i] == '[' && CloseBracket(inputText, i + 1).Some? {
      var j := CloseBracket(inputText, i + 1).value;
      var capture := inputText[i + 1..j];
      var shown;
      citation', citationKeys', referenceCounter', shown :=
        NumberCitation(citation, citationKeys, referenceCounter, Trim(capture), inherited);
      replacedText' := replacedText + CitationMarker(shown);
      i' := j + 1;
    } else {
      citation', citationKeys', referenceCounter' := citation, citationKeys, referenceCounter;
      replacedText' := replacedText + [inputText[i]];
      i' := i + 1;
    }
  }

  /** The replace with its callback, as the source runs it: one pass over
      the input, numbering a key in `citation` the first time the callback
      sees it. `citationKeys` is the object's own-key insertion order. */
  method SubstituteCitations(inputText: string, inherited: map<string, string>)
    returns (replacedText: string, citationKeys: seq<string>)
    ensures citationKeys == FirstSeen(Keys(Scan(inputText, 0)), inherited)
    ensures replacedText == Render(Scan(inputText, 0), citationKeys, inherited)
  {
    var citation: map<string, nat> := map[];
    var referenceCounter := 1;
    citationKeys := [];
    replacedText := "";
    var i := 0;
    ghost var result := ReplaceFrom(inputText, 0, [], "", inherited);
    while i < |inputText|
      invariant 0 <= i <= |inputText|
      invariant ReplaceFrom(inputText, i, citationKeys, replacedText, inherited) == result
      invariant NumberingState(citation, citationKeys, referenceCounter, inherited)
      decreases |inputText| - i
    {
      ReplaceFromStep(inputText, i, citationKeys, replacedText, inherited);
      i, citation, citationKeys, referenceCounter, replacedText :=
        ConsumePiece(inputText, i, citation, citationKeys, referenceCounter, replacedText, inherited);
    }
    ReplaceFromStart(inputText, inherited);
  }

  // ---------------------------------------------------------------------
  // `Object.keys(citation)` and the citation list

  /** A canonical array index: digits without a leading zero, below
      2^32 - 1. An object lists these own keys first, in ascending numeric
      order, and its other string keys after them in insertion order. */
  predicate IsArrayIndex(k: string) {
    k != [] && AllDigits(k) && (k[0] == '0' ==> |k| == 1) && DigitsValue(k) < 4294967295
  }

  predicate AllIndexes(ks: seq<string>) {
    forall i :: 0 <= i < |ks| ==> IsArrayIndex(ks[i])
  }

  function IndexKeys(keys: seq<string>): (r: seq<string>)
    ensures AllIndexes(r)
  {
    if keys == [] then []
    else (if IsArrayIndex(keys[0]) then [keys[0]] else []) + IndexKeys(keys[1..])
  }

  function NamedKeys(keys: seq<string>): (r: seq<string>)
    ensures forall i :: 0 <= i < |r| ==> !IsArrayIndex(r[i])
  {
    if keys == [] then []
    else (if IsArrayIndex(keys[0]) then [] else [keys[0]]) + NamedKeys(keys[1..])
  }

  /** The numeric value of an array-index key. */
  function IndexValue(k: string): nat {
    if AllDigits(k) then DigitsValue(k) else 0
  }

  /** Keys in ascending numeric order. */
  predicate Ascending(ks: seq<string>) {
    forall i, j :: 0 <= i < j < |ks| ==> IndexValue(ks[i]) <= IndexValue(ks[j])
  }

  /** Keys whose values are each at least `v`. */
  predicate AtLeast(ks: seq<string>, v: nat) {
    forall i :: 0 <= i < |ks| ==> IndexValue(ks[i]) >= v
  }

  lemma AscendingCons(h: string, t: seq<string>)
    ensures Ascending([h] + t) <==> AtLeast(t, IndexValue(h)) && Ascending(t)
  {
    if AtLeast(t, IndexValue(h)) && Ascending(t) {
      AscendingConsIntro(h, t);
    }
    if Ascending([h] + t) {
      AscendingConsElim(h, t);
    }
  }

  lemma AscendingConsIntro(h: string, t: seq<string>)
    requires AtLeast(t, IndexValue(h)) && Ascending(t)
    ensures Ascending([h] + t)
  {
    var s := [h] + t;
    forall i, j | 0 <= i < j < |s|
      ensures IndexValue(s[i]) <= IndexValue(s[j])
    {
      var a := t[j - 1];
      assert s[j] == a;
      if i > 0 {
        var b := t[i - 1];
        assert s[i] == b;
        assert IndexValue(b) <= IndexValue(a);
      } else {
        assert IndexValue(a) >= IndexValue(h);
      }
    }
  }

  lemma AscendingConsElim(h: string, t: seq<string>)
    requires Ascending([h] + t)
    ensures AtLeast(t, IndexValue(h)) && Ascending(t)
  {
    var s := [h] + t;
    forall i | 0 <= i < |t|
      ensures IndexValue(t[i]) >= IndexValue(h)
    {
      assert t[i] == s[i + 1] && s[0] == h;
      assert IndexValue(s[0]) <= IndexValue(s[i + 1]);
    }
    forall i, j | 0 <= i < j < |t|
      ensures IndexValue(t[i]) <= IndexValue(t[j])
    {
      assert t[i] == s[i + 1] && t[j] == s[j + 1];
      assert IndexValue(s[i + 1]) <= IndexValue(s[j + 1]);
    }
  }

  function InsertIndex(k: string, ks: seq<string>): (r: seq<string>)
    ensures |r| == |ks| + 1
  {
    if ks == [] then [k]
    else if IndexValue(k) <= IndexValue(ks[0]) then [k] + ks
    else [ks[0]] + InsertIndex(k, ks[1..])
  }

  lemma {:induction false} InsertIndexAtLeast(k: string, ks: seq<string>, v: nat)
    requires AtLeast(ks, v) && IndexValue(k) >= v
    ensures AtLeast(InsertIndex(k, ks), v)
  {
    if ks != [] && IndexValue(k) > IndexValue(ks[0]) {
      InsertIndexAtLeast(k, ks[1..], v);
      var r := InsertIndex(k, ks[1..]);
      forall i | 0 <= i < |r| + 1
        ensures IndexValue(([ks[0]] + r)[i]) >= v
      {
        if i > 0 {
          assert ([ks[0]] + r)[i] == r[i - 1];
        }
      }
    }
  }

  lemma {:induction false} InsertIndexSorted(k: string, ks: seq<string>)
    requires Ascending(ks)
    ensures Ascending(InsertIndex(k, ks))
  {
    if ks == [] {
    } else if IndexValue(k) <= IndexValue(ks[0]) {
      AscendingCons(ks[0], ks[1..]);
      assert ks == [ks[0]] + ks[1..];
      forall i | 0 <= i < |ks|
        ensures IndexValue(ks[i]) >= IndexValue(k)
      {
        if i > 0 {
          assert ks[i] == ks[1..][i - 1];
        }
      }
      AscendingCons(k, ks);
    } else {
      var t := ks[1..];
      assert ks == [ks[0]] + t;
      AscendingCons(ks[0], t);
      InsertIndexSorted(k, t);
      InsertIndexAtLeast(k, t, IndexValue(ks[0]));
      AscendingCons(ks[0], InsertIndex(k, t));
    }
  }

  lemma {:induction false} InsertIndexMultiset(k: string, ks: seq<string>)
    ensures multiset(InsertIndex(k, ks)) == multiset(ks) + multiset{k}
  {
    if ks != [] && IndexValue(k) > IndexValue(ks[0]) {
      InsertIndexMultiset(k, ks[1..]);
      assert ks == [ks[0]] + ks[1..];
    }
  }

  /** The engine's ordering of the array indexes (an insertion sort). */
  function SortIndexes(ks: seq<string>): (r: seq<string>)
    ensures |r| == |ks|
  {
    if ks == [] then [] else InsertIndex(ks[0], SortIndexes(ks[1..]))
  }

  lemma {:induction false} SortIndexesSpec(ks: seq<string>)
    ensures Ascending(SortIndexes(ks))
    ensures multiset(SortIndexes(ks)) == multiset(ks)
  {
    if ks != [] {
      SortIndexesSpec(ks[1..]);
      InsertIndexSorted(ks[0], SortIndexes(ks[1..]));
      InsertIndexMultiset(ks[0], SortIndexes(ks[1..]));
      assert ks == [ks[0]] + ks[1..];
    }
  }

  lemma {:induction false} SplitKeysMultiset(keys: seq<string>)
    ensures multiset(IndexKeys(keys)) + multiset(NamedKeys(keys)) == multiset(keys)
  {
    if keys != [] {
      var t := keys[1..];
      SplitKeysMultiset(t);
      assert keys == [keys[0]] + t;
      var one := if IsArrayIndex(keys[0]) then [keys[0]] else [];
      var other := if IsArrayIndex(keys[0]) then [] else [keys[0]];
      assert multiset(one) + multiset(other) == multiset{keys[0]};
      assert multiset(IndexKeys(keys)) == multiset(one) + multiset(IndexKeys(t));
      assert multiset(NamedKeys(keys)) == multiset(other) + multiset(NamedKeys(t));
    }
  }

  lemma {:induction false} NoIndexKeys(keys: seq<string>)
    requires forall i :: 0 <= i < |keys| ==> !IsArrayIndex(keys[i])
    ensures IndexKeys(keys) == [] && NamedKeys(keys) == keys
  {
    if keys != [] {
      NoIndexKeys(keys[1..]);
      assert keys == [keys[0]] + keys[1..];
    }
  }

  /** `Object.keys(citation)`: the array-index keys first, ascending, then the
      other keys in the order they were numbered. */
  function ObjectKeys(order: seq<string>): seq<string> {
    SortIndexes(IndexKeys(order)) + NamedKeys(order)
  }

  /** `Object.keys` lists every numbered key once: a permutation of the
      numbering order whose array-index keys come first, ascending, and whose
      other keys follow in numbering order. */
  lemma ObjectKeysSpec(order: seq<string>)
    ensures var ks, n := ObjectKeys(order), |IndexKeys(order)|;
      && multiset(ks) == multiset(order)
      && n <= |ks| && AllIndexes(ks[..n]) && Ascending(ks[..n])
      && ks[n..] == NamedKeys(order)
  {
    SortIndexesSpec(IndexKeys(order));
    SplitKeysMultiset(order);
    var ks := ObjectKeys(order);
    var sorted := SortIndexes(IndexKeys(order));
    assert ks[..|sorted|] == sorted;
    assert ks[|sorted|..] == NamedKeys(order);
    forall i | 0 <= i < |sorted|
      ensures IsArrayIndex(sorted[i])
    {
      assert sorted[i] in multiset(IndexKeys(order));
    }
  }

  /** Without array-index keys, `Object.keys` is the numbering order. */
  lemma ObjectKeysInsertionOrder(order: seq<string>)
    requires forall i :: 0 <= i < |order| ==> !IsArrayIndex(order[i])
    ensures ObjectKeys(order) == order
  {
    NoIndexKeys(order);
    AppendEmpty(order);
  }

  /** `Object.keys(citation).map((text, index) => ({ref: index + 1, text}))` */
  function CitationList(order: seq<string>): seq<Citation> {
    var ks := ObjectKeys(order);
    seq(|ks|, i requires 0 <= i < |ks| => Citation(i + 1, ks[i]))
  }

  /** The texts of a citation list. */
  function CitationTexts(cs: seq<Citation>): (r: seq<string>)
    ensures |r| == |cs|
  {
    seq(|cs|, n requires 0 <= n < |cs| => cs[n].text)
  }

  /** The list has one entry per numbered key, refs counting from 1, and it
      lists every numbered key exactly once. */
  lemma CitationListEntries(order: seq<string>)
    ensures var cs := CitationList(order);
      && |cs| == |order|
      && (forall n :: 0 <= n < |cs| ==> cs[n].ref == n + 1)
      && multiset(CitationTexts(cs)) == multiset(order)
  {
    ObjectKeysSpec(order);
    var cs := CitationList(order);
    assert CitationTexts(cs) == ObjectKeys(order);
    assert |multiset(ObjectKeys(order))| == |multiset(order)|;
  }

  /** The citation list as its display evidently intends it, consistent with
      the markers: the keys in the order they were numbered. */
  function CitationListInOrder(order: seq<string>): seq<Citation> {
    seq(|order|, i requires 0 <= i < |order| => Citation(i + 1, order[i]))
  }

  /** Entry `n` of the list in numbering order is the key whose markers show
      `n`: the list and the text agree, whatever the keys look like. */
  lemma CitationListInOrderMatchesMarkers(order: seq<string>, inherited: map<string, string>)
    requires Distinct(order) && forall x :: x in order ==> x !in inherited
    ensures var cs := CitationListInOrder(order);
      && |cs| == |order|
      && forall n :: 0 <= n < |cs| ==>
           cs[n].ref == n + 1 && MarkerFor(cs[n].text, order, inherited) == CitationMarker(DecimalString(cs[n].ref))
  {
    var cs := CitationListInOrder(order);
    forall n | 0 <= n < |cs|
      ensures MarkerFor(cs[n].text, order, inherited) == CitationMarker(DecimalString(cs[n].ref))
    {
      PositionInDistinct(order, n);
    }
  }

  /** When no key is an array index, the list `Object.keys` gives is the one
      in numbering order, so its refs agree with the markers. */
  lemma CitationListWithoutIndexKeys(order: seq<string>)
    requires forall k :: k in order ==> !IsArrayIndex(k)
    ensures CitationList(order) == CitationListInOrder(order)
  {
    ObjectKeysInsertionOrder(order);
  }

  /** The list as `Object.keys` builds it: one entry per key, refs from 1,
      the keys in `Object.keys` order; its entries agree with the markers
      when no key is an array index. */
  lemma CitationListMarkers(order: seq<string>, inherited: map<string, string>)
    requires Distinct(order) && forall x :: x in order ==> x !in inherited
    ensures var cs := CitationList(order);
      && |cs| == |order| && CitationTexts(cs) == ObjectKeys(order)
      && multiset(CitationTexts(cs)) == multiset(order)
      && (forall n :: 0 <= n < |cs| ==> cs[n].ref == n + 1)
      && ((forall k :: k in order ==> !IsArrayIndex(k)) ==>
            forall n :: 0 <= n < |cs| ==> MarkerFor(cs[n].text, order, inherited) == CitationMarker(DecimalString(n + 1)))
  {
    CitationListEntries(order);
    assert CitationTexts(CitationList(order)) == ObjectKeys(order);
    if forall k :: k in order ==> !IsArrayIndex(k) {
      CitationListWithoutIndexKeys(order);
      CitationListInOrderMatchesMarkers(order, inherited);
    }
  }

  const CitationB: string := "b"
  const CitationOne: string := "1"

  /** A text citing `[b]` and then `[1]` numbers `b` as 1 and `1` as 2, but
      `Object.keys` lists `1` first: the list shows "1. 1" and "2. b" while
      the text shows b's marker as 1. */
  lemma IndexKeyListedOutOfOrder(inherited: map<string, string>)
    requires CitationB !in inherited && CitationOne !in inherited
    ensures CitationList([CitationB, CitationOne]) == [Citation(1, CitationOne), Citation(2, CitationB)]
    ensures MarkerFor(CitationB, [CitationB, CitationOne], inherited) == CitationMarker(DecimalString(1))
  {
    var order := [CitationB, CitationOne];
    assert IsArrayIndex(CitationOne) && !IsArrayIndex(CitationB);
    assert order[1..] == [CitationOne] && [CitationOne][1..] == [];
    assert IndexKeys([CitationOne]) == [CitationOne] && NamedKeys([CitationOne]) == [];
    assert IndexKeys(order) == [CitationOne];
    assert NamedKeys(order) == [CitationB];
  }
}
