/** Transcript formatting: one line per transcription segment that has
    text, optionally prefixed with its time span, joined by newlines and
    stripped of surrounding whitespace. */
module Transcript {
  import opened Wrappers
  import opened Text

  /** One transcription item. `start` and `end` are `None` when the
      attribute is absent or not a number. */
  datatype Segment = Segment(value: Option<string>, start: Option<real>, end: Option<real>)

  /** The line a segment contributes, if any. `render` stands for the
      two-decimal rendering of a timestamp. */
  function LineOf(seg: Segment, render: real -> string): (line: Option<string>)
    ensures line.Some? <==> Present(seg.value)
    ensures line.Some? ==> EndsWith(line.value, seg.value.value)
    ensures line.Some? && (seg.start.None? || seg.end.None?) ==> line.value == seg.value.value
  {
    if !Present(seg.value) then
      None
    else if seg.start.Some? && seg.end.Some? then
      var prefix := "[" + render(seg.start.value) + "-" + render(seg.end.value) + "] ";
      assert (prefix + seg.value.value)[|prefix|..] == seg.value.value;
      Some(prefix + seg.value.value)
    else
      Some(seg.value.value)
  }

  /** The lines of a list of segments, in order. */
  function Lines(segs: seq<Segment>, render: real -> string): seq<string>
  {
    if |segs| == 0 then []
    else
      var init := Lines(segs[..|segs| - 1], render);
      match LineOf(segs[|segs| - 1], render)
      case None => init
      case Some(line) => init + [line]
  }

  /** The transcript text for an optional list of segments. */
  function FormattedTranscript(transcription: Option<seq<Segment>>, render: real -> string): string
  {
    match transcription
    case None => ""
    case Some(segs) => if |segs| == 0 then "" else Strip(Join("\n", Lines(segs, render)))
  }

  /** `_format_transcription`. */
  method FormatTranscription(transcription: Option<seq<Segment>>, render: real -> string)
    returns (text: string)
    ensures text == FormattedTranscript(transcription, render)
  {
    if transcription.None? || |transcription.value| == 0 {
      return "";
    }
    var segs := transcription.value;
    var lines: seq<string> := [];
    for i := 0 to |segs|
      invariant lines == Lines(segs[..i], render)
    {
      assert segs[..i + 1][..i] == segs[..i];
      var seg := segs[i];
      if !(seg.value.Some? && seg.value.value != "") {
        continue;
      }
      var text := seg.value.value;
      if seg.start.Some? && seg.end.Some? {
        lines := lines + ["[" + render(seg.start.value) + "-" + render(seg.end.value) + "] " + text];
      } else {
        lines := lines + [text];
      }
    }
    assert segs[..|segs|] == segs;
    text := Strip(Join("\n", lines));
  }

  // ----- properties -----

  /** Lines of a concatenation are the concatenated lines: each segment
      contributes on its own, and the order of segments is kept. */
  lemma {:induction false} LinesAppend(a: seq<Segment>, b: seq<Segment>, render: real -> string)
    ensures Lines(a + b, render) == Lines(a, render) + Lines(b, render)
  {
    if |b| == 0 {
      assert a + b == a;
    } else {
      var b' := b[..|b| - 1];
      assert (a + b)[..|a + b| - 1] == a + b';
      assert (a + b)[|a + b| - 1] == b[|b| - 1];
      LinesAppend(a, b', render);
    }
  }

  /** The number of segments that have text. */
  function CountWithText(segs: seq<Segment>): nat
  {
    if |segs| == 0 then 0
    else CountWithText(segs[..|segs| - 1]) + (if Present(segs[|segs| - 1].value) then 1 else 0)
  }

  /** There is exactly one line per segment with text. */
  lemma {:induction false} LinesCount(segs: seq<Segment>, render: real -> string)
    ensures |Lines(segs, render)| == CountWithText(segs)
  {
    if |segs| > 0 {
      LinesCount(segs[..|segs| - 1], render);
    }
  }

  /** A segment with no text can be inserted anywhere without changing the
      transcript. */
  lemma SegmentWithoutTextIsSkipped(a: seq<Segment>, seg: Segment, b: seq<Segment>, render: real -> string)
    requires !Present(seg.value)
    ensures FormattedTranscript(Some(a + [seg] + b), render) == FormattedTranscript(Some(a + b), render)
  {
    LinesAppend(a + [seg], b, render);
    LinesAppend(a, [seg], render);
    LinesAppend(a, b, render);
    assert Lines([seg], render) == [] by {
      assert [seg][..0] == [];
    }
  }

  /** With no segment carrying text the transcript is empty. */
  lemma {:induction false} NoTextNoTranscript(segs: seq<Segment>, render: real -> string)
    requires forall i :: 0 <= i < |segs| ==> !Present(segs[i].value)
    ensures FormattedTranscript(Some(segs), render) == ""
  {
    LinesCount(segs, render);
    CountWithTextZero(segs);
  }

  lemma {:induction false} CountWithTextZero(segs: seq<Segment>)
    requires forall i :: 0 <= i < |segs| ==> !Present(segs[i].value)
    ensures CountWithText(segs) == 0
  {
    if |segs| > 0 {
      CountWithTextZero(segs[..|segs| - 1]);
    }
  }

  /** Two segments with text, the first stamped and the second not, give
      two newline-separated lines, the first with its time span. */
  lemma TwoSegments(s: Segment, u: Segment, render: real -> string)
    requires Present(s.value) && s.start.Some? && s.end.Some?
    requires Present(u.value) && (u.start.None? || u.end.None?)
    ensures FormattedTranscript(Some([s, u]), render) ==
      Strip("[" + render(s.start.value) + "-" + render(s.end.value) + "] " + s.value.value + "\n" + u.value.value)
  {
    var first := "[" + render(s.start.value) + "-" + render(s.end.value) + "] " + s.value.value;
    assert [s, u][..1] == [s];
    assert [s][..0] == [];
    assert Lines([s], render) == [first];
    assert Lines([s, u], render) == [first, u.value.value];
    assert Join("\n", [first, u.value.value]) == first + "\n" + u.value.value;
  }
}
