/** The streaming demultiplexer of llm_handler.py (`get_streamed_response`
    and `stream_handler`). The HTTP response is abstracted as the sequence
    of its lines, each already reduced to `Some(content)` when it is a JSON
    object whose `message` object holds a string `content`, and to `None`
    when the code skips it: an empty line, valid UTF-8 that is not JSON, or
    JSON that fails one of the two `in` tests without raising. Lines that
    make the code raise are not modelled.

    Each content line is appended to the buffer and the buffer is drained:
    outside a think block the code looks for `<think>`, inside for
    `</think>`; the text before a found tag is emitted (unless empty), the
    tag is dropped and the state flips; when no tag is found the whole
    remaining buffer is emitted (even if empty) and the buffer is cleared.
    Since the buffer is always cleared before the next line arrives, a tag
    split across two lines is never recognised. */
module ThinkStream {
  import opened Wrappers
  import opened Text

  const OpenTag: string := "<think>"
  const CloseTag: string := "</think>"

  datatype Channel = Answer | Think

  /** One `(part_type, token)` pair yielded by the generator. */
  datatype Piece = Piece(channel: Channel, text: string)

  function ChannelOf(inThink: bool): Channel {
    if inThink then Think else Answer
  }

  /** The tag the drain loop searches for in a given state. */
  function Awaited(inThink: bool): string {
    if inThink then CloseTag else OpenTag
  }

  /** A piece never contains the tag that would have ended its channel. */
  predicate CleanPiece(p: Piece) {
    !Contains(p.text, Awaited(p.channel == Think))
  }

  function Last<T>(xs: seq<T>): T
    requires |xs| > 0
  {
    xs[|xs| - 1]
  }

  /** Every piece is clean. */
  predicate AllClean(pieces: seq<Piece>) {
    forall i :: 0 <= i < |pieces| ==> CleanPiece(pieces[i])
  }

  /** Only the last piece may be empty. */
  predicate EmptyOnlyAtEnd(pieces: seq<Piece>) {
    forall i :: 0 <= i < |pieces| - 1 ==> |pieces[i].text| > 0
  }

  /** A non-empty clean piece in front of a well-formed drain output keeps
      it well formed. */
  lemma PrependPieces(lead: seq<Piece>, rest: seq<Piece>)
    requires |lead| <= 1 && |rest| >= 1
    requires forall i :: 0 <= i < |lead| ==> |lead[i].text| > 0 && CleanPiece(lead[i])
    requires AllClean(rest) && EmptyOnlyAtEnd(rest)
    ensures AllClean(lead + rest) && EmptyOnlyAtEnd(lead + rest)
    ensures Last(lead + rest) == Last(rest)
  {
    var pieces := lead + rest;
    forall k | 0 <= k < |pieces|
      ensures CleanPiece(pieces[k])
      ensures k < |pieces| - 1 ==> |pieces[k].text| > 0
    {
      if k >= |lead| {
        assert pieces[k] == rest[k - |lead|];
      }
    }
  }

  /** What draining one buffer yields: the pieces, and the state after. */
  datatype Drained = Drained(pieces: seq<Piece>, inThink: bool)

  /** The `while True` loop of `get_streamed_response`. Each round either
      stops or drops a whole tag from the buffer, so it terminates on the
      buffer's length. */
  function Drain(buffer: string, inThink: bool): (r: Drained)
    // the remainder is always emitted, so there is at least one piece
    ensures |r.pieces| >= 1
    // only the final remainder can be empty: empty prefixes are skipped
    ensures EmptyOnlyAtEnd(r.pieces)
    // answer pieces hold no `<think>`, think pieces no `</think>`
    ensures AllClean(r.pieces)
    // the last piece is on the channel of the state the drain ends in
    ensures Last(r.pieces).channel == ChannelOf(r.inThink)
    decreases |buffer|
  {
    if !inThink then
      var i := Find(buffer, OpenTag);
      if i == -1 then
        FindCorrect(buffer, OpenTag);
        assert CleanPiece(Piece(Answer, buffer));
        Drained([Piece(Answer, buffer)], false)
      else
        FindPrefixClear(buffer, OpenTag);
        assert CleanPiece(Piece(Answer, buffer[..i]));
        var lead := if i > 0 then [Piece(Answer, buffer[..i])] else [];
        var rest := Drain(buffer[i + |OpenTag|..], true);
        PrependPieces(lead, rest.pieces);
        Drained(lead + rest.pieces, rest.inThink)
    else
      var i := Find(buffer, CloseTag);
      if i == -1 then
        FindCorrect(buffer, CloseTag);
        assert CleanPiece(Piece(Think, buffer));
        Drained([Piece(Think, buffer)], true)
      else
        FindPrefixClear(buffer, CloseTag);
        assert CleanPiece(Piece(Think, buffer[..i]));
        var lead := if i > 0 then [Piece(Think, buffer[..i])] else [];
        var rest := Drain(buffer[i + |CloseTag|..], false);
        PrependPieces(lead, rest.pieces);
        Drained(lead + rest.pieces, rest.inThink)
  }

  // ---------------------------------------------------------------------
  // An independent description of one drain: the buffer is cut at the
  // recognised tags into segments, alternately outside and inside a think
  // block.

  /** The segments of `s` between the tags recognised from state `inThink`. */
  function Segments(s: string, inThink: bool): (r: seq<string>)
    ensures |r| >= 1
    decreases |s|
  {
    if !inThink then
      var i := Find(s, OpenTag);
      if i == -1 then [s] else [s[..i]] + Segments(s[i + |OpenTag|..], true)
    else
      var i := Find(s, CloseTag);
      if i == -1 then [s] else [s[..i]] + Segments(s[i + |CloseTag|..], false)
  }

  /** Re-inserts the alternating tags between segments. */
  function Interleave(segs: seq<string>, inThink: bool): string
    requires |segs| >= 1
  {
    if |segs| == 1 then segs[0]
    else segs[0] + Awaited(inThink) + Interleave(segs[1..], !inThink)
  }

  /** No segment contains the tag its state is waiting for. */
  predicate TagFree(segs: seq<string>, inThink: bool) {
    |segs| == 0 || (!Contains(segs[0], Awaited(inThink)) && TagFree(segs[1..], !inThink))
  }

  /** The pieces a list of segments turns into: each on its state's
      channel, an empty segment dropped unless it is the last. */
  function Label(segs: seq<string>, inThink: bool): (r: seq<Piece>)
    requires |segs| >= 1
    ensures |r| >= 1
  {
    if |segs| == 1 then [Piece(ChannelOf(inThink), segs[0])]
    else
      (if |segs[0]| > 0 then [Piece(ChannelOf(inThink), segs[0])] else [])
      + Label(segs[1..], !inThink)
  }

  /** The state after crossing `tags` tags: every tag flips it. */
  function Toggled(inThink: bool, tags: nat): bool {
    if tags % 2 == 0 then inThink else !inThink
  }

  /** Crossing one tag and then `tags - 1` more is crossing `tags`. */
  lemma ToggledStep(inThink: bool, tags: nat)
    requires tags >= 1
    ensures Toggled(inThink, tags) == Toggled(!inThink, tags - 1)
  {
  }

  function Texts(pieces: seq<Piece>): seq<string> {
    seq(|pieces|, i requires 0 <= i < |pieces| => pieces[i].text)
  }

  /** Putting the recognised tags back between the segments gives the
      buffer back. */
  lemma {:induction false} SegmentsRoundTrip(s: string, inThink: bool)
    ensures Interleave(Segments(s, inThink), inThink) == s
    decreases |s|
  {
    var tag := Awaited(inThink);
    var i := Find(s, tag);
    var segs := Segments(s, inThink);
    if i == -1 {
      assert segs == [s];
    } else {
      var rest := s[i + |tag|..];
      SegmentsRoundTrip(rest, !inThink);
      var later := Segments(rest, !inThink);
      assert segs == [s[..i]] + later;
      assert segs[1..] == later;
      assert Interleave(segs, inThink) == s[..i] + tag + Interleave(later, !inThink);
      SplitAtOccurrence(s, tag, i);
    }
  }

  /** Every segment is free of the tag its state waits for. */
  lemma {:induction false} SegmentsTagFree(s: string, inThink: bool)
    ensures TagFree(Segments(s, inThink), inThink)
    decreases |s|
  {
    var tag := Awaited(inThink);
    var i := Find(s, tag);
    if i != -1 {
      var rest := s[i + |tag|..];
      assert !Contains(s[..i], tag) by {
        FindPrefixClear(s, tag);
      }
      assert TagFree(Segments(rest, !inThink), !inThink) by {
        SegmentsTagFree(rest, !inThink);
      }
      assert Segments(s, inThink) == [s[..i]] + Segments(rest, !inThink) by {
        SegmentsCut(s, inThink);
      }
      TagFreeCons(s[..i], Segments(rest, !inThink), inThink);
    } else {
      assert !Contains(s, tag) by {
        FindCorrect(s, tag);
      }
      assert Segments(s, inThink) == [s] by {
        SegmentsCut(s, inThink);
      }
      assert [s][1..] == [];
    }
  }

  /** One step of segmentation: cut at the first awaited tag. */
  lemma SegmentsCut(s: string, inThink: bool)
    ensures var i := Find(s, Awaited(inThink));
      && (i == -1 ==> Segments(s, inThink) == [s])
      && (i != -1 ==> Segments(s, inThink) == [s[..i]] + Segments(s[i + |Awaited(inThink)|..], !inThink))
  {
    if inThink {
      assert Awaited(inThink) == CloseTag;
    } else {
      assert Awaited(inThink) == OpenTag;
    }
  }

  /** A tag-free segment in front of a tag-free list from the flipped state. */
  lemma TagFreeCons(x: string, segs: seq<string>, inThink: bool)
    requires !Contains(x, Awaited(inThink)) && TagFree(segs, !inThink)
    ensures TagFree([x] + segs, inThink)
  {
    assert ([x] + segs)[1..] == segs;
  }

  /** Neither tag overlaps itself. */
  lemma TagsNoSelfOverlap(inThink: bool)
    ensures |Awaited(inThink)| > 0 && NoSelfOverlap(Awaited(inThink))
  {
  }

  /** Segmentation is unique: any tag-free segment list that re-assembles
      into `s` is the one `Segments` finds. */
  lemma {:induction false} SegmentsUnique(segs: seq<string>, inThink: bool)
    requires |segs| >= 1
    requires TagFree(segs, inThink)
    ensures Segments(Interleave(segs, inThink), inThink) == segs
    decreases |segs|
  {
    var tag := Awaited(inThink);
    if |segs| == 1 {
      var x := segs[0];
      assert Interleave(segs, inThink) == x;
      assert Find(x, tag) == -1 by {
        FindCorrect(x, tag);
      }
      assert Segments(x, inThink) == [x] by {
        SegmentsCut(x, inThink);
      }
    } else {
      var x := segs[0];
      var rest := Interleave(segs[1..], !inThink);
      var s := x + tag + rest;
      assert Interleave(segs, inThink) == s;
      assert Find(s, tag) == |x| by {
        TagsNoSelfOverlap(inThink);
        FindAfterClear(x, tag, rest);
      }
      assert s[..|x|] == x && s[|x| + |tag|..] == rest by {
        JoinedParts(x, tag, rest);
      }
      assert Segments(s, inThink) == [x] + Segments(rest, !inThink) by {
        SegmentsCut(s, inThink);
      }
      assert Segments(rest, !inThink) == segs[1..] by {
        SegmentsUnique(segs[1..], !inThink);
      }
      assert segs == [x] + segs[1..];
    }
  }

  /** Draining emits the labelled segments. */
  lemma {:induction false} DrainMatchesSegments(s: string, inThink: bool)
    ensures Drain(s, inThink).pieces == Label(Segments(s, inThink), inThink)
    decreases |s|
  {
    var tag := Awaited(inThink);
    var i := Find(s, tag);
    var segs := Segments(s, inThink);
    var d := Drain(s, inThink);
    if i == -1 {
      assert segs == [s];
      assert d.pieces == [Piece(ChannelOf(inThink), s)];
    } else {
      var rest := s[i + |tag|..];
      DrainMatchesSegments(rest, !inThink);
      var later := Segments(rest, !inThink);
      var lead := if i > 0 then [Piece(ChannelOf(inThink), s[..i])] else [];
      assert segs == [s[..i]] + later;
      assert d.pieces == lead + Drain(rest, !inThink).pieces;
      assert segs[1..] == later;
      assert Label(segs, inThink) == lead + Label(later, !inThink);
    }
  }

  /** Draining the text that re-assembles tag-free segments emits exactly
      those segments, each on its channel. */
  lemma DrainOfInterleave(segs: seq<string>, inThink: bool)
    requires |segs| >= 1
    requires TagFree(segs, inThink)
    ensures Drain(Interleave(segs, inThink), inThink).pieces == Label(segs, inThink)
  {
    SegmentsUnique(segs, inThink);
    DrainMatchesSegments(Interleave(segs, inThink), inThink);
  }

  /** The last labelled piece is on the channel of the state reached after
      crossing every boundary between the segments. */
  lemma {:induction false} LabelEndsToggled(segs: seq<string>, inThink: bool)
    requires |segs| >= 1
    ensures Last(Label(segs, inThink)).channel == ChannelOf(Toggled(inThink, |segs| - 1))
    decreases |segs|
  {
    if |segs| > 1 {
      LabelEndsToggled(segs[1..], !inThink);
      var lead := if |segs[0]| > 0 then [Piece(ChannelOf(inThink), segs[0])] else [];
      var tail := Label(segs[1..], !inThink);
      assert Label(segs, inThink) == lead + tail;
      assert Last(lead + tail) == Last(tail);
      ToggledStep(inThink, |segs| - 1);
    }
  }

  /** Draining flips the state once per recognised tag, that is once per
      segment boundary. */
  lemma DrainFlipsPerTag(s: string, inThink: bool)
    ensures Drain(s, inThink).inThink == Toggled(inThink, |Segments(s, inThink)| - 1)
  {
    DrainMatchesSegments(s, inThink);
    LabelEndsToggled(Segments(s, inThink), inThink);
  }

  /** Dropping empty segments loses no text. */
  lemma {:induction false} LabelKeepsText(segs: seq<string>, inThink: bool)
    requires |segs| >= 1
    ensures Concat(Texts(Label(segs, inThink))) == Concat(segs)
    decreases |segs|
  {
    if |segs| > 1 {
      LabelKeepsText(segs[1..], !inThink);
      var lead := if |segs[0]| > 0 then [Piece(ChannelOf(inThink), segs[0])] else [];
      var tail := Label(segs[1..], !inThink);
      assert Texts(lead + tail) == Texts(lead) + Texts(tail);
      ConcatAppend(Texts(lead), Texts(tail));
    }
  }

  /** Nothing is lost or duplicated: the emitted text is the buffer with
      exactly the recognised tags cut out, and putting those tags back
      between the segments restores the buffer. */
  lemma DrainLossless(s: string, inThink: bool)
    ensures Concat(Texts(Drain(s, inThink).pieces)) == Concat(Segments(s, inThink))
    ensures Interleave(Segments(s, inThink), inThink) == s
  {
    DrainMatchesSegments(s, inThink);
    LabelKeepsText(Segments(s, inThink), inThink);
    SegmentsRoundTrip(s, inThink);
  }

  // ---------------------------------------------------------------------
  // The generator over the whole response.

  /** `(buffer, in_think_block)` between two lines. */
  datatype StreamState = StreamState(buffer: string, inThink: bool)

  const Start: StreamState := StreamState("", false)

  datatype Emitted = Emitted(pieces: seq<Piece>, state: StreamState)

  /** One line of the response. */
  function Step(st: StreamState, line: Option<string>): (r: Emitted)
    // a skipped line emits nothing and leaves the state alone
    ensures line.None? ==> r.pieces == [] && r.state == st
    // a content line always empties the buffer; only the flag carries over
    ensures line.Some? ==> r.state.buffer == "" && |r.pieces| >= 1
    ensures line.Some? ==> Last(r.pieces).channel == ChannelOf(r.state.inThink)
    ensures AllClean(r.pieces)
  {
    match line
    case None => Emitted([], st)
    case Some(token) =>
      var d := Drain(st.buffer + token, st.inThink);
      Emitted(d.pieces, StreamState("", d.inThink))
  }

  /** The `for line in response.iter_lines()` loop from a given state. */
  function Run(st: StreamState, lines: seq<Option<string>>): (r: Emitted)
    ensures st.buffer == "" ==> r.state.buffer == ""
    ensures AllClean(r.pieces)
    decreases |lines|
  {
    if |lines| == 0 then Emitted([], st)
    else
      var e := Step(st, lines[0]);
      var rest := Run(e.state, lines[1..]);
      Emitted(e.pieces + rest.pieces, rest.state)
  }

  /** `get_streamed_response`, from the initial state. */
  function StreamedResponse(lines: seq<Option<string>>): (r: seq<Piece>)
    // no answer piece holds `<think>` and no think piece `</think>`
    ensures AllClean(r)
  {
    Run(Start, lines).pieces
  }

  /** The texts of the answer pieces, in order. */
  function AnswerTexts(pieces: seq<Piece>): (r: seq<string>)
    ensures |r| <= |pieces|
    ensures forall i :: 0 <= i < |r| ==> exists j :: 0 <= j < |pieces| && pieces[j] == Piece(Answer, r[i])
  {
    if |pieces| == 0 then []
    else
      var rest := AnswerTexts(pieces[1..]);
      assert forall i :: 0 <= i < |rest| ==> exists j :: 0 <= j < |pieces| && pieces[j] == Piece(Answer, rest[i]) by {
        forall i | 0 <= i < |rest|
          ensures exists j :: 0 <= j < |pieces| && pieces[j] == Piece(Answer, rest[i])
        {
          var j :| 0 <= j < |pieces[1..]| && pieces[1..][j] == Piece(Answer, rest[i]);
          assert pieces[j + 1] == Piece(Answer, rest[i]);
        }
      }
      if pieces[0].channel == Answer then [pieces[0].text] + rest else rest
  }

  /** `stream_handler`: only the answer tokens of the response. */
  function StreamHandler(lines: seq<Option<string>>): (r: seq<string>)
    ensures forall i :: 0 <= i < |r| ==> !Contains(r[i], OpenTag)
  {
    var pieces := StreamedResponse(lines);
    var r := AnswerTexts(pieces);
    assert forall i :: 0 <= i < |r| ==> !Contains(r[i], OpenTag) by {
      forall i | 0 <= i < |r|
        ensures !Contains(r[i], OpenTag)
      {
        var j :| 0 <= j < |pieces| && pieces[j] == Piece(Answer, r[i]);
        assert CleanPiece(pieces[j]);
      }
    }
    r
  }

  // ---------------------------------------------------------------------
  // Properties of the whole stream.

  /** The answer filter is determined piece by piece: it keeps an answer
      piece's text, drops a think piece, and distributes over `+`. */
  lemma {:induction false} AnswerTextsAppend(a: seq<Piece>, b: seq<Piece>)
    ensures AnswerTexts(a + b) == AnswerTexts(a) + AnswerTexts(b)
    decreases |a|
  {
    if |a| > 0 {
      assert (a + b)[0] == a[0];
      assert (a + b)[1..] == a[1..] + b;
      AnswerTextsAppend(a[1..], b);
    } else {
      assert a + b == b;
    }
  }

  lemma AnswerTextsSingle(p: Piece)
    ensures AnswerTexts([p]) == (if p.channel == Answer then [p.text] else [])
  {
  }

  /** The tokens of the content lines, in order. */
  function Tokens(lines: seq<Option<string>>): seq<string> {
    if |lines| == 0 then []
    else if lines[0].None? then Tokens(lines[1..])
    else [lines[0].value] + Tokens(lines[1..])
  }

  /** No content line holds a whole `<think>` tag. */
  predicate NoOpenTag(lines: seq<Option<string>>) {
    forall i :: 0 <= i < |lines| && lines[i].Some? ==> !Contains(lines[i].value, OpenTag)
  }

  /** A content line without `<think>`, read outside a think block, is
      one answer piece, and the state stays the initial one. */
  lemma StepTagFree(token: string)
    requires !Contains(token, OpenTag)
    ensures Step(Start, Some(token)) == Emitted([Piece(Answer, token)], Start)
  {
    assert "" + token == token;
    FindCorrect(token, OpenTag);
  }

  /** A reply in which no line opens a think block is answered token by
      token: every token is yielded as it came, and the stream never
      leaves the initial state. */
  lemma {:induction false} TagFreeReplyPassesThrough(lines: seq<Option<string>>)
    requires NoOpenTag(lines)
    ensures Run(Start, lines).state == Start
    ensures AnswerTexts(Run(Start, lines).pieces) == Tokens(lines)
    decreases |lines|
  {
    if |lines| > 0 {
      assert NoOpenTag(lines[1..]) by {
        forall i | 0 <= i < |lines[1..]| && lines[1..][i].Some?
          ensures !Contains(lines[1..][i].value, OpenTag)
        {
          assert lines[1..][i] == lines[i + 1];
        }
      }
      TagFreeReplyPassesThrough(lines[1..]);
      var e := Step(Start, lines[0]);
      if lines[0].Some? {
        StepTagFree(lines[0].value);
        AnswerTextsSingle(Piece(Answer, lines[0].value));
      }
      assert e.state == Start;
      var rest := Run(Start, lines[1..]);
      assert Run(Start, lines) == Emitted(e.pieces + rest.pieces, rest.state);
      AnswerTextsAppend(e.pieces, rest.pieces);
    }
  }

  /** The answer `stream_handler` yields for a reply that never opens a
      think block is the reply's tokens, unchanged. */
  lemma TagFreeReplyVerbatim(lines: seq<Option<string>>)
    requires NoOpenTag(lines)
    ensures StreamHandler(lines) == Tokens(lines)
  {
    TagFreeReplyPassesThrough(lines);
  }

  /** The lines that carry content. */
  function Present(lines: seq<Option<string>>): (r: seq<Option<string>>)
    ensures forall i :: 0 <= i < |r| ==> r[i].Some?
  {
    if |lines| == 0 then []
    else if lines[0].None? then Present(lines[1..])
    else [lines[0]] + Present(lines[1..])
  }

  /** Empty, malformed and content-less lines have no effect at all. */
  lemma {:induction false} RunIgnoresSkippedLines(st: StreamState, lines: seq<Option<string>>)
    ensures Run(st, lines) == Run(st, Present(lines))
    decreases |lines|
  {
    if |lines| > 0 {
      RunIgnoresSkippedLines(Step(st, lines[0]).state, lines[1..]);
      if lines[0].Some? {
        var p := Present(lines);
        assert p[0] == lines[0] && p[1..] == Present(lines[1..]);
      }
    }
  }

  /** The stream is a left fold: processing `a + b` is processing `a`, then
      `b` from the state `a` left behind. */
  lemma {:induction false} RunAppend(st: StreamState, a: seq<Option<string>>, b: seq<Option<string>>)
    ensures Run(st, a + b).pieces == Run(st, a).pieces + Run(Run(st, a).state, b).pieces
    ensures Run(st, a + b).state == Run(Run(st, a).state, b).state
    decreases |a|
  {
    if |a| > 0 {
      var e := Step(st, a[0]);
      var ra := Run(e.state, a[1..]);
      var rab := Run(e.state, a[1..] + b);
      var rb := Run(ra.state, b);
      assert Run(st, a) == Emitted(e.pieces + ra.pieces, ra.state) by {
        RunCons(st, a);
      }
      assert Run(st, a + b) == Emitted(e.pieces + rab.pieces, rab.state) by {
        HeadTailAppend(a, b);
        RunCons(st, a + b);
      }
      assert rab == Emitted(ra.pieces + rb.pieces, rb.state) by {
        RunAppend(e.state, a[1..], b);
      }
      AppendAssoc(e.pieces, ra.pieces, rb.pieces);
    } else {
      assert a + b == b;
    }
  }

  /** One round of the loop: the first line's step, then the rest. */
  lemma RunCons(st: StreamState, lines: seq<Option<string>>)
    requires |lines| > 0
    ensures var e := Step(st, lines[0]);
      Run(st, lines) == Emitted(e.pieces + Run(e.state, lines[1..]).pieces, Run(e.state, lines[1..]).state)
  {
  }

  /** Between lines only the flag survives: from an empty buffer, a content
      line is drained on its own, from the flag left by the lines before. */
  lemma LineDrainedAlone(prefix: seq<Option<string>>, token: string)
    ensures Run(Start, prefix + [Some(token)]).pieces
         == StreamedResponse(prefix) + Drain(token, Run(Start, prefix).state.inThink).pieces
  {
    RunAppend(Start, prefix, [Some(token)]);
    var st := Run(Start, prefix).state;
    assert st.buffer == "";
    assert st.buffer + token == token;
  }

  // ---------------------------------------------------------------------
  // Worked examples.

  /** A response of one content line is that line drained from outside a
      think block. */
  lemma SingleLine(token: string)
    ensures StreamedResponse([Some(token)]) == Drain(token, false).pieces
  {
    var lines := [Some(token)];
    assert Start.buffer + token == token;
    var e := Step(Start, lines[0]);
    assert e.pieces == Drain(token, false).pieces;
    assert lines[1..] == [];
    assert Run(e.state, lines[1..]).pieces == [];
    assert Run(Start, lines).pieces == e.pieces + [];
  }

  /** One line carrying a whole think block splits into the answer text
      before it, the reasoning inside it and the answer text after it. */
  lemma OneThinkBlock(before: string, reasoning: string, after: string)
    requires |before| > 0 && |reasoning| > 0
    requires !Contains(before, OpenTag) && !Contains(reasoning, CloseTag) && !Contains(after, OpenTag)
    ensures StreamedResponse([Some(before + OpenTag + reasoning + CloseTag + after)])
         == [Piece(Answer, before), Piece(Think, reasoning), Piece(Answer, after)]
  {
    var segs := [before, reasoning, after];
    assert segs[1..] == [reasoning, after] && segs[2..] == [after];
    assert segs[2..][1..] == [];
    assert TagFree(segs[2..], false);
    assert TagFree(segs[1..], true);
    assert TagFree(segs, false);
    assert Interleave(segs[2..], false) == after;
    assert Interleave(segs[1..], true) == reasoning + CloseTag + after;
    assert Interleave(segs, false) == before + OpenTag + reasoning + CloseTag + after;
    assert Label(segs[2..], false) == [Piece(Answer, after)];
    assert Label(segs[1..], true) == [Piece(Think, reasoning)] + [Piece(Answer, after)];
    assert Label(segs, false) == [Piece(Answer, before)] + [Piece(Think, reasoning), Piece(Answer, after)];
    LineOfSegments(segs);
  }

  /** A one-line response that re-assembles tag-free segments is emitted
      as those segments. */
  lemma LineOfSegments(segs: seq<string>)
    requires |segs| >= 1 && TagFree(segs, false)
    ensures StreamedResponse([Some(Interleave(segs, false))]) == Label(segs, false)
  {
    DrainOfInterleave(segs, false);
    SingleLine(Interleave(segs, false));
  }

  /** Two lines, neither holding a whole `<think>`, stay on the answer
      channel even when the tag straddles the line break: the buffer is
      emptied after every line. */
  lemma SplitTagPassesThrough(first: string, second: string)
    requires !Contains(first, OpenTag) && !Contains(second, OpenTag)
    ensures StreamedResponse([Some(first), Some(second)])
         == [Piece(Answer, first), Piece(Answer, second)]
  {
    var lines := [Some(first), Some(second)];
    assert "" + first == first;
    assert "" + second == second;
    assert Drain(first, false) == Drained([Piece(Answer, first)], false);
    assert Drain(second, false) == Drained([Piece(Answer, second)], false);
    var e1 := Step(Start, lines[0]);
    assert e1 == Emitted([Piece(Answer, first)], Start);
    assert lines[1..] == [Some(second)];
    SingleLine(second);
    assert Run(Start, lines).pieces == e1.pieces + Run(Start, lines[1..]).pieces;
  }

  /** The straddling case does happen: these two lines together spell
      `<think>`, yet each is free of it. */
  lemma StraddlingTagExample()
    ensures Contains("hello <th" + "ink>secret", OpenTag)
    ensures !Contains("hello <th", OpenTag) && !Contains("ink>secret", OpenTag)
  {
    var a := "hello <th";
    var b := "ink>secret";
    assert OccursAt(a + b, OpenTag, 6);
    forall j: nat | j <= |a|
      ensures !OccursAt(a, OpenTag, j)
    {
      if j + |OpenTag| <= |a| {
        assert a[j] != '<';
        assert a[j..j + |OpenTag|][0] == a[j];
      }
    }
    forall j: nat | j <= |b|
      ensures !OccursAt(b, OpenTag, j)
    {
      if j + |OpenTag| <= |b| {
        assert b[j] != '<';
        assert b[j..j + |OpenTag|][0] == b[j];
      }
    }
  }

  /** A response whose one line is `4471` answers exactly `4471`. */
  lemma PlainAnswer()
    ensures StreamHandler([Some("4471")]) == ["4471"]
  {
    NoRoom("4471", OpenTag);
    assert "" + "4471" == "4471";
  }
}
