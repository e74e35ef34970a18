/** The newline-delimited JSON decoder `NdJsonParserStream`
    (src/core/stream/data-format/ndjson.js): one string buffer lives across
    `transform` calls; every non-empty line piece of a chunk is appended to
    it, and whenever the buffer parses as JSON the value is enqueued and the
    buffer is cleared. `JSON.parse` is the `parse` oracle: `Some(v)` where it
    returns `v`, `None` where it throws. */
module NdJson {
  import opened Wrappers
  import opened JsText

  /** The decoder's state: the pending buffer and every value enqueued so far. */
  datatype Fed<V> = Fed(buffer: string, emitted: seq<V>)

  /** `chunk.split('\n').filter(Boolean)` */
  function Pieces(chunk: string): seq<string> {
    NonEmpty(Split(chunk, '\n'))
  }

  /** One iteration of the `for` loop: append, try to parse, emit and clear
      on success; keep the appended buffer on failure. */
  function FeedPiece<V>(parse: string -> Option<V>, st: Fed<V>, piece: string): Fed<V> {
    var b := st.buffer + piece;
    match parse(b)
    case Some(v) => Fed("", st.emitted + [v])
    case None => Fed(b, st.emitted)
  }

  /** The loop over the pieces, in order. */
  function FeedPieces<V>(parse: string -> Option<V>, st: Fed<V>, ps: seq<string>): Fed<V> {
    if ps == [] then st
    else FeedPiece(parse, FeedPieces(parse, st, ps[..|ps| - 1]), ps[|ps| - 1])
  }

  /** One `transform(chunk)` call. */
  function FeedChunk<V>(parse: string -> Option<V>, st: Fed<V>, chunk: string): Fed<V> {
    FeedPieces(parse, st, Pieces(chunk))
  }

  /** A sequence of `transform` calls on the same stream. */
  function FeedChunks<V>(parse: string -> Option<V>, st: Fed<V>, chunks: seq<string>): Fed<V> {
    if chunks == [] then st
    else FeedChunk(parse, FeedChunks(parse, st, chunks[..|chunks| - 1]), chunks[|chunks| - 1])
  }

  /** The concatenation of a sequence of strings. */
  function ConcatAll(ss: seq<string>): string {
    if ss == [] then "" else ConcatAll(ss[..|ss| - 1]) + ss[|ss| - 1]
  }

  class NdJsonParserStream<V> {
    /** `JSON.parse`, as an oracle. */
    const parse: string -> Option<V>
    /** The text of the record being reassembled. */
    var buffer: string
    /** What was handed to `controller.enqueue`, in order. */
    var enqueued: seq<V>

    function State(): Fed<V>
      reads this
    {
      Fed(buffer, enqueued)
    }

    constructor(parse: string -> Option<V>)
      ensures this.parse == parse && State() == Fed("", [])
    {
      this.parse := parse;
      buffer := "";
      enqueued := [];
    }

    /** `transform(chunk)`; it never raises. */
    method Transform(chunk: string)
      modifies this
      ensures State() == FeedChunk(parse, old(State()), chunk)
    {
      var jsonChunks := NonEmpty(Split(chunk, '\n'));
      for i := 0 to |jsonChunks|
        invariant State() == FeedPieces(parse, old(State()), jsonChunks[..i])
      {
        assert jsonChunks[..i + 1][..i] == jsonChunks[..i];
        buffer := buffer + jsonChunks[i];
        var parsed := parse(buffer);
        if parsed.Some? {
          enqueued := enqueued + [parsed.value];
          buffer := "";
        }
      }
      assert jsonChunks[..|jsonChunks|] == jsonChunks;
    }
  }

  // ---------------------------------------------------------------------
  // Properties of the state machine

  /** Feeding two runs of pieces is feeding the first, then the second from
      where the first left off: the buffer carries over. */
  lemma {:induction false} FeedPiecesAppend<V>(parse: string -> Option<V>, st: Fed<V>, p: seq<string>, q: seq<string>)
    ensures FeedPieces(parse, st, p + q) == FeedPieces(parse, FeedPieces(parse, st, p), q)
  {
    if q == [] {
      assert p + q == p;
    } else {
      var q0, last := q[..|q| - 1], q[|q| - 1];
      assert (p + q)[..|p + q| - 1] == p + q0;
      assert (p + q)[|p + q| - 1] == last;
      FeedPiecesAppend(parse, st, p, q0);
    }
  }

  /** A chunk made of newlines only has no pieces. */
  lemma {:induction false} NewlinesHaveNoPieces(chunk: string)
    requires forall i :: 0 <= i < |chunk| ==> chunk[i] == '\n'
    ensures Pieces(chunk) == []
    decreases |chunk|
  {
    if chunk != [] {
      NewlinesHaveNoPieces(chunk[1..]);
      var rest := Split(chunk[1..], '\n');
      assert Split(chunk, '\n') == [""] + rest;
      assert ([""] + rest)[1..] == rest;
    }
  }

  /** A chunk of newlines only emits nothing and leaves the buffer as it was. */
  lemma NewlineChunkIsNoOp<V>(parse: string -> Option<V>, st: Fed<V>, chunk: string)
    requires forall i :: 0 <= i < |chunk| ==> chunk[i] == '\n'
    ensures FeedChunk(parse, st, chunk) == st
  {
    NewlinesHaveNoPieces(chunk);
  }

  /** While no buffer parses, the pieces pile up in the buffer (newlines not
      re-inserted) and nothing is emitted, across chunks as within one. */
  lemma {:induction false} UnparsedPiecesAccumulate<V>(parse: string -> Option<V>, st: Fed<V>, ps: seq<string>)
    requires forall k :: 0 < k <= |ps| ==> parse(st.buffer + ConcatAll(ps[..k])).None?
    ensures FeedPieces(parse, st, ps) == Fed(st.buffer + ConcatAll(ps), st.emitted)
  {
    if ps != [] {
      var init := ps[..|ps| - 1];
      forall k | 0 < k <= |init|
        ensures parse(st.buffer + ConcatAll(init[..k])).None?
      {
        assert init[..k] == ps[..k];
      }
      UnparsedPiecesAccumulate(parse, st, init);
      assert ps[..|ps|] == ps;
      AppendAssoc(st.buffer, ConcatAll(init), ps[|ps| - 1]);
    }
  }

  /** The texts the emitted values were parsed from, in order. */
  function Frames<V>(parse: string -> Option<V>, st: Fed<V>, ps: seq<string>): seq<string> {
    if ps == [] then []
    else
      var b := FeedPieces(parse, st, ps[..|ps| - 1]).buffer + ps[|ps| - 1];
      Frames(parse, st, ps[..|ps| - 1]) + (if parse(b).Some? then [b] else [])
  }

  /** Emission order: the new values are the parses of the frames, in
      order, and the initial buffer and the pieces are exactly the frames
      followed by the new buffer, so nothing is lost, reordered or repeated;
      and a non-empty buffer left at the end is one that did not parse,
      which no flush ever emits. */
  lemma {:induction false} FramesSpec<V>(parse: string -> Option<V>, st: Fed<V>, ps: seq<string>)
    ensures var r, fs := FeedPieces(parse, st, ps), Frames(parse, st, ps);
      && |r.emitted| == |st.emitted| + |fs|
      && r.emitted[..|st.emitted|] == st.emitted
      && (forall k :: 0 <= k < |fs| ==> parse(fs[k]) == Some(r.emitted[|st.emitted| + k]))
      && st.buffer + ConcatAll(ps) == ConcatAll(fs) + r.buffer
      && (ps != [] ==> r.buffer == "" || parse(r.buffer).None?)
  {
    if ps == [] {
      AppendEmpty(st.buffer);
    } else {
      var init, p := ps[..|ps| - 1], ps[|ps| - 1];
      FramesSpec(parse, st, init);
      assert ps == init + [p];
      FramesStep(parse, st, init, p);
    }
  }

  /** The account `FramesSpec` gives of a run of pieces. */
  ghost predicate FramesAccount<V>(parse: string -> Option<V>, st: Fed<V>, ps: seq<string>) {
    var r, fs := FeedPieces(parse, st, ps), Frames(parse, st, ps);
    && |r.emitted| == |st.emitted| + |fs|
    && r.emitted[..|st.emitted|] == st.emitted
    && (forall k :: 0 <= k < |fs| ==> parse(fs[k]) == Some(r.emitted[|st.emitted| + k]))
    && st.buffer + ConcatAll(ps) == ConcatAll(fs) + r.buffer
  }

  /** One piece more keeps the account. */
  lemma FramesStep<V>(parse: string -> Option<V>, st: Fed<V>, init: seq<string>, p: string)
    requires FramesAccount(parse, st, init)
    ensures FramesAccount(parse, st, init + [p])
    ensures var r := FeedPieces(parse, st, init + [p]); r.buffer == "" || parse(r.buffer).None?
  {
    var ps := init + [p];
    assert ps[..|ps| - 1] == init && ps[|ps| - 1] == p;
    var prev, fs0 := FeedPieces(parse, st, init), Frames(parse, st, init);
    var b := prev.buffer + p;
    assert FeedPieces(parse, st, ps) == FeedPiece(parse, prev, p);
    assert Frames(parse, st, ps) == fs0 + (if parse(b).Some? then [b] else []);
    assert ConcatAll(ps) == ConcatAll(init) + p;
    AppendAssoc(st.buffer, ConcatAll(init), p);
    AppendAssoc(ConcatAll(fs0), prev.buffer, p);
    if parse(b).Some? {
      EmitFrame(parse, st, fs0, prev, b);
    } else {
      AppendEmpty(fs0);
    }
  }

  /** A parsed buffer `b` adds one frame and one value. */
  lemma EmitFrame<V>(parse: string -> Option<V>, st: Fed<V>, fs0: seq<string>, prev: Fed<V>, b: string)
    requires parse(b).Some?
    requires |prev.emitted| == |st.emitted| + |fs0| && prev.emitted[..|st.emitted|] == st.emitted
    requires forall k :: 0 <= k < |fs0| ==> parse(fs0[k]) == Some(prev.emitted[|st.emitted| + k])
    ensures var fs, em := fs0 + [b], prev.emitted + [parse(b).value];
      && |em| == |st.emitted| + |fs| && em[..|st.emitted|] == st.emitted
      && (forall k :: 0 <= k < |fs| ==> parse(fs[k]) == Some(em[|st.emitted| + k]))
      && ConcatAll(fs) == ConcatAll(fs0) + b
  {
    var fs, em := fs0 + [b], prev.emitted + [parse(b).value];
    assert fs[..|fs| - 1] == fs0;
    assert em[..|st.emitted|] == prev.emitted[..|st.emitted|];
    forall k | 0 <= k < |fs|
      ensures parse(fs[k]) == Some(em[|st.emitted| + k])
    {
      if k < |fs0| {
        assert fs[k] == fs0[k];
      }
    }
  }

  // ---------------------------------------------------------------------
  // Chunk-boundary invariance

  /** No non-empty proper prefix of `s` parses (true of JSON objects). */
  predicate NoProperPrefixParses<V>(parse: string -> Option<V>, s: string) {
    forall k :: 0 < k < |s| ==> parse(s[..k]).None?
  }

  /** A line of a well-framed stream: blank, or a record that parses while
      none of its non-empty proper prefixes does. */
  predicate Frame<V>(parse: string -> Option<V>, line: string) {
    line == "" || (parse(line).Some? && NoProperPrefixParses(parse, line))
  }

  /** `text` is a prefix of a well-framed stream: its complete lines are
      frames and its last, possibly partial, line has no parsing proper
      prefix. */
  predicate Framed<V>(parse: string -> Option<V>, text: string) {
    var lines := Split(text, '\n');
    && (forall i :: 0 <= i < |lines| - 1 ==> Frame(parse, lines[i]))
    && NoProperPrefixParses(parse, lines[|lines| - 1])
  }

  /** Feeding a text cut in two is feeding the whole text, provided the
      cut does not fall where the left half of the cut line already parses
      after the buffer built so far. */
  lemma FuseChunks<V>(parse: string -> Option<V>, st: Fed<V>, a: string, b: string)
    requires var sa, sb := Split(a, '\n'), Split(b, '\n');
      var x, y := sa[|sa| - 1], sb[0];
      var pending := FeedPieces(parse, st, NonEmpty(sa[..|sa| - 1])).buffer;
      x != "" && y != "" ==> parse(pending + x).None?
    ensures FeedChunk(parse, st, a + b) == FeedChunk(parse, FeedChunk(parse, st, a), b)
  {
    var sa, sb := Split(a, '\n'), Split(b, '\n');
    var x, y := sa[|sa| - 1], sb[0];
    var A, Z := NonEmpty(sa[..|sa| - 1]), NonEmpty(sb[1..]);
    PiecesAtBoundary(a, b);
    FuseAt(parse, st, Pieces(a + b), Pieces(a), Pieces(b), A, x, y, Z);
  }

  /** The line `x ++ y` fed whole between the pieces `a` and `z`, or cut
      after `x`. */
  lemma FuseAt<V>(parse: string -> Option<V>, st: Fed<V>, whole: seq<string>, left: seq<string>, right: seq<string>,
                  a: seq<string>, x: string, y: string, z: seq<string>)
    requires whole == a + NonEmpty([x + y]) + z && left == a + NonEmpty([x]) && right == NonEmpty([y]) + z
    requires x != "" && y != "" ==> parse(FeedPieces(parse, st, a).buffer + x).None?
    ensures FeedPieces(parse, st, whole) == FeedPieces(parse, FeedPieces(parse, st, left), right)
  {
    FuseLine(parse, FeedPieces(parse, st, a), x, y);
    FeedAround(parse, st, a, NonEmpty([x + y]), NonEmpty([x]), NonEmpty([y]), z);
  }

  /** Feeding `a ++ m ++ z` in one go or as `a ++ ma` then `mb ++ z`, when
      `m` fed after `a` does what `ma` then `mb` do. */
  lemma FeedAround<V>(parse: string -> Option<V>, st: Fed<V>, a: seq<string>, m: seq<string>,
                      ma: seq<string>, mb: seq<string>, z: seq<string>)
    requires var s0 := FeedPieces(parse, st, a);
      FeedPieces(parse, s0, m) == FeedPieces(parse, FeedPieces(parse, s0, ma), mb)
    ensures FeedPieces(parse, st, a + m + z) == FeedPieces(parse, FeedPieces(parse, st, a + ma), mb + z)
  {
    FeedPiecesAppend(parse, st, a + m, z);
    FeedPiecesAppend(parse, st, a, m);
    FeedPiecesAppend(parse, st, a, ma);
    FeedPiecesAppend(parse, FeedPieces(parse, st, a + ma), mb, z);
  }

  /** The pieces of two chunks and of their concatenation, around the line
      the cut falls in. */
  lemma PiecesAtBoundary(a: string, b: string)
    ensures var sa, sb := Split(a, '\n'), Split(b, '\n');
      var x, y := sa[|sa| - 1], sb[0];
      var A, Z := NonEmpty(sa[..|sa| - 1]), NonEmpty(sb[1..]);
      && Pieces(a + b) == A + NonEmpty([x + y]) + Z
      && Pieces(a) == A + NonEmpty([x])
      && Pieces(b) == NonEmpty([y]) + Z
  {
    var sa, sb := Split(a, '\n'), Split(b, '\n');
    var x, y := sa[|sa| - 1], sb[0];
    var front, back := sa[..|sa| - 1], sb[1..];
    SplitAppend(a, b, '\n');
    NonEmptyAppend(front + [x + y], back);
    NonEmptyAppend(front, [x + y]);
    assert sa == front + [x];
    NonEmptyAppend(front, [x]);
    assert sb == [y] + back;
    NonEmptyAppend([y], back);
  }

  /** The boundary line, fed whole or in two halves. */
  lemma FuseLine<V>(parse: string -> Option<V>, s0: Fed<V>, x: string, y: string)
    requires x != "" && y != "" ==> parse(s0.buffer + x).None?
    ensures FeedPieces(parse, s0, NonEmpty([x + y]))
         == FeedPieces(parse, FeedPieces(parse, s0, NonEmpty([x])), NonEmpty([y]))
  {
    SingletonPieces(x);
    SingletonPieces(y);
    SingletonPieces(x + y);
    if x == "" {
      assert x + y == y;
    } else if y == "" {
      assert x + y == x;
    } else {
      assert [x][..0] == [] && [y][..0] == [] && [x + y][..0] == [];
      AppendAssoc(s0.buffer, x, y);
    }
  }

  lemma SingletonPieces(s: string)
    ensures NonEmpty([s]) == if s == "" then [] else [s]
  {
    assert [s][1..] == [];
  }

  /** The values of pieces that each parse on their own. */
  function ParsedAll<V>(parse: string -> Option<V>, ps: seq<string>): (r: seq<V>)
    requires forall i :: 0 <= i < |ps| ==> parse(ps[i]).Some?
    ensures |r| == |ps|
  {
    if ps == [] then [] else ParsedAll(parse, ps[..|ps| - 1]) + [parse(ps[|ps| - 1]).value]
  }

  /** From an empty buffer, pieces that each parse on their own are emitted
      one value each, in order, and leave the buffer empty. */
  lemma {:induction false} CompleteLinesEmit<V>(parse: string -> Option<V>, emitted: seq<V>, ps: seq<string>)
    requires forall i :: 0 <= i < |ps| ==> parse(ps[i]).Some?
    ensures FeedPieces(parse, Fed("", emitted), ps) == Fed("", emitted + ParsedAll(parse, ps))
  {
    if ps == [] {
      AppendEmpty(emitted);
    } else {
      var init := ps[..|ps| - 1];
      CompleteLinesEmit(parse, emitted, init);
      AppendEmpty(ps[|ps| - 1]);
      AppendAssoc(emitted, ParsedAll(parse, init), [parse(ps[|ps| - 1]).value]);
    }
  }

  /** The complete lines of a prefix are complete lines of the whole text. */
  lemma PrefixCompleteLines<V>(parse: string -> Option<V>, p: string, c: string)
    requires Framed(parse, p + c)
    ensures var sp := Split(p, '\n');
      forall i :: 0 <= i < |sp| - 1 ==> Frame(parse, sp[i])
  {
    var sp, sc := Split(p, '\n'), Split(c, '\n');
    SplitAppend(p, c, '\n');
    var lines := Split(p + c, '\n');
    forall i | 0 <= i < |sp| - 1
      ensures Frame(parse, sp[i])
    {
      assert sp[i] == lines[i];
    }
  }

  /** The last line of a prefix, run on into the rest, is a line of the
      whole text; so no proper prefix of it parses, nor does the line
      itself when the rest continues it. */
  lemma PrefixLastLine<V>(parse: string -> Option<V>, p: string, c: string)
    requires Framed(parse, p + c)
    ensures var sp, sc := Split(p, '\n'), Split(c, '\n');
      && NoProperPrefixParses(parse, sp[|sp| - 1])
      && (sp[|sp| - 1] != "" && sc[0] != "" ==> parse(sp[|sp| - 1]).None?)
  {
    var sp, sc := Split(p, '\n'), Split(c, '\n');
    SplitAppend(p, c, '\n');
    var lines := Split(p + c, '\n');
    var j := |sp| - 1;
    assert lines[j] == sp[j] + sc[0];
    if j < |lines| - 1 {
      assert Frame(parse, lines[j]);
    }
    PrefixOfPrefixFree(parse, sp[j], sc[0]);
  }

  /** A prefix of a text none of whose proper prefixes parses has the same
      property, and does not parse itself when it is proper and non-empty. */
  lemma PrefixOfPrefixFree<V>(parse: string -> Option<V>, x: string, y: string)
    requires NoProperPrefixParses(parse, x + y)
    ensures NoProperPrefixParses(parse, x)
    ensures x != "" && y != "" ==> parse(x).None?
  {
    forall k | 0 < k < |x|
      ensures parse(x[..k]).None?
    {
      assert x[..k] == (x + y)[..k];
    }
    if x != "" && y != "" {
      assert x == (x + y)[..|x|];
    }
  }

  /** Chunk-boundary invariance: cutting a framed text into chunks anywhere
      gives the same emitted values and the same final buffer as feeding it
      in one chunk, so a record split across chunks is reassembled. */
  lemma {:induction false} ChunkBoundaryInvariance<V>(parse: string -> Option<V>, chunks: seq<string>)
    requires Framed(parse, ConcatAll(chunks))
    ensures FeedChunks(parse, Fed("", []), chunks) == FeedChunk(parse, Fed("", []), ConcatAll(chunks))
  {
    if chunks == [] {
      assert Split("", '\n') == [""];
    } else {
      var init, c := chunks[..|chunks| - 1], chunks[|chunks| - 1];
      var p := ConcatAll(init);
      PrefixFramed(parse, p, c);
      ChunkBoundaryInvariance(parse, init);
      InvarianceStep(parse, p, c);
    }
  }

  /** A prefix of a framed text is framed, and its last line, when the
      rest of the text continues it, does not parse yet. */
  lemma PrefixFramed<V>(parse: string -> Option<V>, p: string, c: string)
    requires Framed(parse, p + c)
    ensures Framed(parse, p)
    ensures var sp, sc := Split(p, '\n'), Split(c, '\n');
      sp[|sp| - 1] != "" && sc[0] != "" ==> parse(sp[|sp| - 1]).None?
  {
    PrefixCompleteLines(parse, p, c);
    PrefixLastLine(parse, p, c);
  }

  /** The complete lines of a framed text leave the buffer empty. */
  lemma FramedLinesEmptyBuffer<V>(parse: string -> Option<V>, p: string)
    requires Framed(parse, p)
    ensures var sp := Split(p, '\n');
      FeedPieces(parse, Fed("", []), NonEmpty(sp[..|sp| - 1])).buffer == ""
  {
    var sp := Split(p, '\n');
    var complete := NonEmpty(sp[..|sp| - 1]);
    forall i | 0 <= i < |complete|
      ensures parse(complete[i]).Some?
    {
      assert complete[i] in sp[..|sp| - 1];
    }
    CompleteLinesEmit(parse, [], complete);
  }

  /** One chunk more of a framed text. */
  lemma InvarianceStep<V>(parse: string -> Option<V>, p: string, c: string)
    requires Framed(parse, p + c)
    ensures FeedChunk(parse, FeedChunk(parse, Fed("", []), p), c) == FeedChunk(parse, Fed("", []), p + c)
  {
    var sp := Split(p, '\n');
    PrefixFramed(parse, p, c);
    FramedLinesEmptyBuffer(parse, p);
    AppendEmpty(sp[|sp| - 1]);
    FuseChunks(parse, Fed("", []), p, c);
  }

  /** A whole well-framed text: framed, and its last line a frame too. */
  predicate WellFramed<V>(parse: string -> Option<V>, text: string) {
    Framed(parse, text) && Frame(parse, Split(text, '\n')[|Split(text, '\n')| - 1])
  }

  /** A well-framed text, in one chunk, is decoded into the values of its
      non-blank lines, in order, with nothing left in the buffer. */
  lemma WellFramedDecodes<V>(parse: string -> Option<V>, text: string)
    requires WellFramed(parse, text)
    ensures forall i :: 0 <= i < |Pieces(text)| ==> parse(Pieces(text)[i]).Some?
    ensures FeedChunk(parse, Fed("", []), text) == Fed("", ParsedAll(parse, Pieces(text)))
  {
    var lines, ps := Split(text, '\n'), Pieces(text);
    forall i | 0 <= i < |ps|
      ensures parse(ps[i]).Some?
    {
      assert ps[i] in lines;
    }
    CompleteLinesEmit(parse, [], ps);
    AppendEmpty(ParsedAll(parse, ps));
  }

  /** However a well-framed stream is cut into chunks, the decoder emits
      the values of its lines, in order, and ends with an empty buffer. */
  lemma ChunkedStreamDecodes<V>(parse: string -> Option<V>, chunks: seq<string>)
    requires WellFramed(parse, ConcatAll(chunks))
    ensures forall i :: 0 <= i < |Pieces(ConcatAll(chunks))| ==> parse(Pieces(ConcatAll(chunks))[i]).Some?
    ensures FeedChunks(parse, Fed("", []), chunks) == Fed("", ParsedAll(parse, Pieces(ConcatAll(chunks))))
  {
    ChunkBoundaryInvariance(parse, chunks);
    WellFramedDecodes(parse, ConcatAll(chunks));
  }
}
