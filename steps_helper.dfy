/**
 * The steps panel's text helpers: the bracket scanner that splits a step name into
 * plain and highlighted parts, the label a highlight is shown with, the selector
 * list parser and the message shown for a failed step.
 */
module StepsPanelHelper {
  import opened JsStrings

  /** `{ type: "normal" | "highlight", value }`. */
  datatype Segment = Normal(value: string) | Highlight(value: string)

  /** The loop variables of `parseStepNameText`: `count`, `start`, `newText` and `finalArr`. */
  datatype Scanner = Scanner(count: int, start: nat, newText: string, segments: seq<Segment>)

  const Initial: Scanner := Scanner(0, 0, "", [])

  /** One iteration of the loop, at index `i`. */
  function Step(text: string, i: nat, s: Scanner): Scanner
    requires i < |text|
    requires s.start <= i && (s.count != 0 ==> s.start < i)
  {
    if text[i] == '[' then
      if s.count + 1 == 1 then Scanner(1, i, "", s.segments + [Normal(s.newText)])
      else s.(count := s.count + 1)
    else if text[i] == ']' then
      if s.count - 1 == 0 then s.(count := 0, segments := s.segments + [Highlight(text[s.start + 1..i])])
      else s.(count := s.count - 1)
    else if s.count == 0 then s.(newText := s.newText + [text[i]])
    else s
  }

  /** The loop state after the first `n` characters. */
  function ScanUpTo(text: string, n: nat): (s: Scanner)
    requires n <= |text|
    ensures s.start <= n && (s.count != 0 ==> s.start < n)
  {
    if n == 0 then Initial else Step(text, n - 1, ScanUpTo(text, n - 1))
  }

  /** After the loop: an open group becomes a highlight of the rest of the text; leftover plain text becomes a last normal segment. */
  function Finish(text: string, s: Scanner): seq<Segment>
    requires s.start <= |text| && (s.count != 0 ==> s.start < |text|)
  {
    var segments := if s.count != 0 then s.segments + [Highlight(text[s.start + 1..])] else s.segments;
    var newText := if s.count != 0 then "" else s.newText;
    if |newText| > 0 then segments + [Normal(newText)] else segments
  }

  /** What `parseStepNameText(text)` returns. */
  function StepNameSegments(text: string): seq<Segment> {
    Finish(text, ScanUpTo(text, |text|))
  }

  /** `parseStepNameText(text)`, with its loop. */
  method ParseStepNameText(text: string) returns (finalArr: seq<Segment>)
    ensures finalArr == StepNameSegments(text)
  {
    var count := 0;
    var start := 0;
    var end := 0;
    var newText := "";
    finalArr := [];
    for i := 0 to |text|
      invariant Scanner(count, start, newText, finalArr) == ScanUpTo(text, i)
    {
      if text[i] == '[' {
        count := count + 1;
        if count == 1 {
          start := i;
          finalArr := finalArr + [Normal(newText)];
          newText := "";
        }
      } else if text[i] == ']' {
        count := count - 1;
        if count == 0 {
          end := i;
          finalArr := finalArr + [Highlight(text[start + 1..end])];
        }
      } else if count == 0 {
        newText := newText + [text[i]];
      }
    }
    if count != 0 {
      finalArr := finalArr + [Highlight(text[start + 1..])];
      newText := "";
    }
    if |newText| > 0 {
      finalArr := finalArr + [Normal(newText)];
    }
  }

  // ---------------------------------------------------------------------------
  // Bracket depth

  /** Opening minus closing brackets. */
  function Depth(s: string): int {
    Occurrences(s, '[') as int - Occurrences(s, ']') as int
  }

  /** No prefix closes more brackets than it opens. */
  ghost predicate NeverNegative(s: string) {
    forall k :: 0 <= k <= |s| ==> Depth(s[..k]) >= 0
  }

  lemma {:induction false} OccurrencesAppend(s: string, t: string, c: char)
    ensures Occurrences(s + t, c) == Occurrences(s, c) + Occurrences(t, c)
  {
    if |s| > 0 {
      assert (s + t)[1..] == s[1..] + t;
      OccurrencesAppend(s[1..], t, c);
    } else {
      assert s + t == t;
    }
  }

  /** The depth after one more character. */
  lemma DepthSnoc(s: string, c: char)
    ensures Depth(s + [c]) == Depth(s) + (if c == '[' then 1 else if c == ']' then -1 else 0)
  {
    OccurrencesAppend(s, [c], '[');
    OccurrencesAppend(s, [c], ']');
    assert [c][1..] == [];
  }

  lemma NeverNegativeSnoc(s: string, c: char)
    requires NeverNegative(s) && Depth(s + [c]) >= 0
    ensures NeverNegative(s + [c])
  {
    forall k | 0 <= k <= |s + [c]|
      ensures Depth((s + [c])[..k]) >= 0
    {
      if k <= |s| {
        assert (s + [c])[..k] == s[..k];
      } else {
        assert (s + [c])[..k] == s + [c];
      }
    }
  }

  lemma NeverNegativePrefix(s: string, n: nat)
    requires NeverNegative(s) && n <= |s|
    ensures NeverNegative(s[..n])
  {
    forall k | 0 <= k <= n
      ensures Depth(s[..n][..k]) >= 0
    {
      assert s[..n][..k] == s[..k];
    }
  }

  // ---------------------------------------------------------------------------
  // Scanner invariants

  /** `count` is always the depth of the text read so far. */
  lemma {:induction false} CountIsDepth(text: string, n: nat)
    requires n <= |text|
    ensures ScanUpTo(text, n).count == Depth(text[..n])
  {
    if n > 0 {
      CountIsDepth(text, n - 1);
      assert text[..n] == text[..n - 1] + [text[n - 1]];
      DepthSnoc(text[..n - 1], text[n - 1]);
    }
  }

  /** While a group is open, `start` is its `[`, nothing plain is pending, and the group so far never closes below its own level. */
  lemma {:induction false} OpenGroup(text: string, n: nat)
    requires n <= |text|
    ensures var s := ScanUpTo(text, n);
      s.count > 0 ==>
        && text[s.start] == '['
        && s.newText == ""
        && s.count - 1 == Depth(text[s.start + 1..n])
        && NeverNegative(text[s.start + 1..n])
  {
    if n > 0 {
      OpenGroup(text, n - 1);
      StepOpenGroup(text, n - 1, ScanUpTo(text, n - 1));
    }
  }

  /** All that `OpenGroup` states of the state after the first `n` characters. */
  ghost predicate OpenGroupFacts(text: string, n: nat, s: Scanner)
    requires n <= |text| && s.start <= n && (s.count != 0 ==> s.start < n)
  {
    s.count > 0 ==>
      && text[s.start] == '['
      && s.newText == ""
      && s.count - 1 == Depth(text[s.start + 1..n])
      && NeverNegative(text[s.start + 1..n])
  }

  lemma StepOpenGroup(text: string, i: nat, p: Scanner)
    requires i < |text| && p.start <= i && (p.count != 0 ==> p.start < i)
    requires OpenGroupFacts(text, i, p)
    ensures OpenGroupFacts(text, i + 1, Step(text, i, p))
  {
    var s := Step(text, i, p);
    if s.count > 0 {
      if p.count <= 0 {
        assert text[s.start + 1..i + 1] == [];
        assert Depth([]) == 0;
      } else {
        SliceExtend(text, p.start + 1, i);
        DepthSnoc(text[p.start + 1..i], text[i]);
        NeverNegativeSnoc(text[p.start + 1..i], text[i]);
      }
    }
  }

  /** How the segments read back as text. */
  function RenderSegment(seg: Segment): string {
    match seg
    case Normal(v) => v
    case Highlight(v) => "[" + v + "]"
  }

  function Render(segments: seq<Segment>): string {
    if |segments| == 0 then "" else Render(segments[..|segments| - 1]) + RenderSegment(segments[|segments| - 1])
  }

  lemma RenderSnoc(segments: seq<Segment>, seg: Segment)
    ensures Render(segments + [seg]) == Render(segments) + RenderSegment(seg)
  {
    assert (segments + [seg])[..|segments|] == segments;
  }

  /** What the scanner has read back, as `ReadBack` states it, after the first `n` characters. */
  ghost predicate ReadsBack(text: string, n: nat, s: Scanner)
    requires n <= |text| && s.start <= n
  {
    && (s.count == 0 ==> Render(s.segments) + s.newText == text[..n])
    && (s.count > 0 ==> Render(s.segments) + text[s.start..n] == text[..n])
  }

  /** One step keeps the read-back as long as the count stays non-negative. */
  lemma StepReadsBack(text: string, i: nat, p: Scanner)
    requires i < |text| && p.start <= i && (p.count != 0 ==> p.start < i)
    requires p.count >= 0 && Step(text, i, p).count >= 0
    requires p.count > 0 ==> text[p.start] == '[' && p.newText == ""
    requires ReadsBack(text, i, p)
    ensures ReadsBack(text, i + 1, Step(text, i, p))
  {
    var c := text[i];
    if p.count == 0 {
      if c == '[' {
        assert Step(text, i, p) == Scanner(1, i, "", p.segments + [Normal(p.newText)]);
        OpenReadsBack(text, i, p);
      } else {
        assert c != ']';
        assert Step(text, i, p) == p.(newText := p.newText + [c]);
        PlainReadsBack(text, i, p);
      }
    } else if c == ']' && p.count == 1 {
      assert Step(text, i, p) == p.(count := 0, segments := p.segments + [Highlight(text[p.start + 1..i])]);
      CloseReadsBack(text, i, p);
    } else {
      assert Step(text, i, p).start == p.start && Step(text, i, p).segments == p.segments && Step(text, i, p).count > 0;
      InsideReadsBack(text, i, p);
    }
  }

  lemma OpenReadsBack(text: string, i: nat, p: Scanner)
    requires i < |text| && p.start <= i && p.count == 0 && text[i] == '['
    requires Render(p.segments) + p.newText == text[..i]
    ensures Render(p.segments + [Normal(p.newText)]) + text[i..i + 1] == text[..i + 1]
  {
    RenderSnoc(p.segments, Normal(p.newText));
    SliceSnoc(text, i);
    assert text[i..i + 1] == [text[i]];
  }

  lemma PlainReadsBack(text: string, i: nat, p: Scanner)
    requires i < |text|
    requires Render(p.segments) + p.newText == text[..i]
    ensures Render(p.segments) + (p.newText + [text[i]]) == text[..i + 1]
  {
    SliceSnoc(text, i);
    AppendBoth(Render(p.segments), p.newText, text[..i], text[i]);
  }

  lemma CloseReadsBack(text: string, i: nat, p: Scanner)
    requires i < |text| && p.start < i && text[p.start] == '[' && text[i] == ']'
    requires Render(p.segments) + text[p.start..i] == text[..i]
    ensures Render(p.segments + [Highlight(text[p.start + 1..i])]) == text[..i + 1]
  {
    var v := text[p.start + 1..i];
    RenderSnoc(p.segments, Highlight(v));
    SliceCons(text, p.start, i);
    SliceSnoc(text, i);
    AppendClose(Render(p.segments), v, text[..i]);
  }

  /** A slice is its first character followed by the rest. */
  lemma SliceCons(text: string, j: nat, i: nat)
    requires j < i <= |text|
    ensures text[j..i] == [text[j]] + text[j + 1..i]
  {
  }

  /** A prefix one longer is the prefix and the next character. */
  lemma SliceSnoc(text: string, i: nat)
    requires i < |text|
    ensures text[..i + 1] == text[..i] + [text[i]]
  {
  }

  lemma AppendClose(r: string, v: string, pre: string)
    requires r + (['['] + v) == pre
    ensures r + RenderSegment(Highlight(v)) == pre + [']']
  {
  }

  lemma InsideReadsBack(text: string, i: nat, p: Scanner)
    requires i < |text| && p.start < i
    requires Render(p.segments) + text[p.start..i] == text[..i]
    ensures Render(p.segments) + text[p.start..i + 1] == text[..i + 1]
  {
    SliceExtend(text, p.start, i);
    SliceSnoc(text, i);
    AppendBoth(Render(p.segments), text[p.start..i], text[..i], text[i]);
  }

  /** A slice one longer is the slice and the next character. */
  lemma SliceExtend(text: string, j: nat, i: nat)
    requires j <= i < |text|
    ensures text[j..i + 1] == text[j..i] + [text[i]]
  {
  }

  lemma AppendBoth(r: string, a: string, pre: string, c: char)
    requires r + a == pre
    ensures r + (a + [c]) == pre + [c]
  {
  }

  /**
   * On text that never closes more than it opened, the segments and the pending text give
   * back what has been read: plain text as is, closed groups in their brackets, and an open
   * group from its `[`.
   */
  lemma {:induction false} ReadBack(text: string, n: nat)
    requires n <= |text|
    requires NeverNegative(text[..n])
    ensures var s := ScanUpTo(text, n);
      && (s.count == 0 ==> Render(s.segments) + s.newText == text[..n])
      && (s.count > 0 ==> Render(s.segments) + text[s.start..n] == text[..n])
  {
    if n > 0 {
      NeverNegativePrefix(text[..n], n - 1);
      assert text[..n][..n - 1] == text[..n - 1];
      ReadBack(text, n - 1);
      CountIsDepth(text, n);
      CountIsDepth(text, n - 1);
      OpenGroup(text, n - 1);
      assert Depth(text[..n][..n]) >= 0;
      assert text[..n][..n] == text[..n];
      assert Depth(text[..n][..n - 1]) >= 0;
      StepReadsBack(text, n - 1, ScanUpTo(text, n - 1));
    }
  }

  /** Segment kinds alternate normal, highlight, normal, ...: a normal segment at every even place. */
  ghost predicate Alternating(segments: seq<Segment>) {
    forall i :: 0 <= i < |segments| ==> (segments[i].Normal? <==> i % 2 == 0)
  }

  /** On text that never goes below depth 0, the segments alternate and their count is odd exactly while a group is open. */
  lemma {:induction false} AlternatingScan(text: string, n: nat)
    requires n <= |text|
    requires NeverNegative(text[..n])
    ensures var s := ScanUpTo(text, n);
      Alternating(s.segments) && (s.count == 0 <==> |s.segments| % 2 == 0) && s.count >= 0
  {
    CountIsDepth(text, n);
    assert text[..n][..n] == text[..n];
    if n > 0 {
      NeverNegativePrefix(text[..n], n - 1);
      assert text[..n][..n - 1] == text[..n - 1];
      AlternatingScan(text, n - 1);
      StepAlternates(text, n - 1, ScanUpTo(text, n - 1));
    }
  }

  /** One step keeps the kinds alternating and the parity of their count tied to an open group. */
  lemma StepAlternates(text: string, i: nat, p: Scanner)
    requires i < |text| && p.start <= i && (p.count != 0 ==> p.start < i)
    requires Alternating(p.segments) && (p.count == 0 <==> |p.segments| % 2 == 0) && p.count >= 0
    requires Step(text, i, p).count >= 0
    ensures var s := Step(text, i, p);
      Alternating(s.segments) && (s.count == 0 <==> |s.segments| % 2 == 0)
  {
    var s := Step(text, i, p);
    if s.segments != p.segments {
      var n := |p.segments|;
      assert |s.segments| == n + 1;
      assert forall j :: 0 <= j < n ==> s.segments[j] == p.segments[j];
      assert s.segments[n].Normal? <==> p.count == 0;
    }
  }

  /** Every closed group's value is itself balanced and never goes below depth 0. */
  lemma {:induction false} ClosedGroupsBalanced(text: string, n: nat)
    requires n <= |text|
    ensures var s := ScanUpTo(text, n);
      forall i :: 0 <= i < |s.segments| && s.segments[i].Highlight? ==>
        Depth(s.segments[i].value) == 0 && NeverNegative(s.segments[i].value)
  {
    if n > 0 {
      ClosedGroupsBalanced(text, n - 1);
      OpenGroup(text, n - 1);
    }
  }

  /** Plain text read without brackets all waits in `newText`. */
  lemma {:induction false} PlainScan(text: string, n: nat)
    requires n <= |text|
    requires forall i :: 0 <= i < |text| ==> text[i] != '[' && text[i] != ']'
    ensures ScanUpTo(text, n) == Scanner(0, 0, text[..n], [])
  {
    if n > 0 {
      PlainScan(text, n - 1);
      assert text[..n] == text[..n - 1] + [text[n - 1]];
    }
  }

  // ---------------------------------------------------------------------------
  // Properties of parseStepNameText

  /** Balanced text that never closes more than it opened reads back exactly from its segments. */
  lemma BalancedRoundTrip(text: string)
    requires NeverNegative(text) && Depth(text) == 0
    ensures Render(StepNameSegments(text)) == text
  {
    var s := ScanUpTo(text, |text|);
    assert text[..|text|] == text;
    CountIsDepth(text, |text|);
    ReadBack(text, |text|);
    if |s.newText| > 0 {
      RenderSnoc(s.segments, Normal(s.newText));
    }
  }

  /**
   * When groups are left open, the last segment is a highlight of everything after a `[`
   * that the rest of the text never closes: the last top-level `[`.
   */
  lemma OpenRoundTrip(text: string)
    requires NeverNegative(text) && Depth(text) > 0
    ensures var segs := StepNameSegments(text);
      |segs| > 0 && segs[|segs| - 1].Highlight? &&
      Render(segs[..|segs| - 1]) + "[" + segs[|segs| - 1].value == text
    ensures var segs := StepNameSegments(text);
      |segs| > 0 && NeverNegative(segs[|segs| - 1].value)
  {
    var s := ScanUpTo(text, |text|);
    assert text[..|text|] == text;
    CountIsDepth(text, |text|);
    ReadBack(text, |text|);
    OpenGroup(text, |text|);
    OpenEnd(text, s);
    FinishOpen(text, s);
    assert text[s.start + 1..|text|] == text[s.start + 1..];
  }

  /** The end of `OpenRoundTrip`, from the state the scan stops in. */
  lemma OpenEnd(text: string, s: Scanner)
    requires s.start < |text| && s.count > 0 && s.newText == "" && text[s.start] == '['
    requires Render(s.segments) + text[s.start..|text|] == text
    ensures var segs := Finish(text, s);
      |segs| > 0 && segs[|segs| - 1].Highlight? &&
      Render(segs[..|segs| - 1]) + "[" + segs[|segs| - 1].value == text
  {
    FinishOpen(text, s);
    SliceCons(text, s.start, |text|);
    LastDropped(s.segments, Highlight(text[s.start + 1..]));
    OpenConcat(Render(s.segments), text[s.start + 1..], text);
  }

  lemma OpenConcat(r: string, v: string, whole: string)
    requires r + (['['] + v) == whole
    ensures r + "[" + v == whole
  {
  }

  /** With a group open at the end, the segments end with a highlight of everything after its `[`. */
  lemma FinishOpen(text: string, s: Scanner)
    requires s.start < |text| && s.count > 0 && s.newText == ""
    ensures Finish(text, s) == s.segments + [Highlight(text[s.start + 1..])]
  {
  }

  lemma LastDropped(segments: seq<Segment>, seg: Segment)
    ensures var all := segments + [seg];
      |all| > 0 && all[|all| - 1] == seg && all[..|all| - 1] == segments
  {
  }

  /**
   * On text that never goes below depth 0 the kinds alternate starting with normal (so an
   * empty normal segment precedes a group at the very start), and a last normal segment is
   * never empty.
   */
  lemma SegmentsAlternate(text: string)
    requires NeverNegative(text)
    ensures Alternating(StepNameSegments(text))
    ensures var segs := StepNameSegments(text);
      |segs| > 0 && segs[|segs| - 1].Normal? ==> |segs[|segs| - 1].value| > 0
    ensures |text| > 0 && text[0] == '[' ==> |StepNameSegments(text)| > 0 && StepNameSegments(text)[0] == Normal("")
  {
    assert text[..|text|] == text;
    AlternatingScan(text, |text|);
    if |text| > 0 && text[0] == '[' {
      assert ScanUpTo(text, 1).segments == [Normal("")];
      SegmentsExtend(text, 1, |text|);
    }
  }

  /** The loop only appends to `finalArr`: what was pushed after `m` characters is still its start after `n`. */
  lemma {:induction false} SegmentsExtend(text: string, m: nat, n: nat)
    requires m <= n <= |text|
    ensures ScanUpTo(text, m).segments <= ScanUpTo(text, n).segments
    decreases n
  {
    if n > m {
      SegmentsExtend(text, m, n - 1);
    }
  }

  /**
   * When the text ends balanced, every highlight is balanced and never goes below depth 0,
   * and no normal segment holds a bracket: each highlight is the whole content of a
   * top-level group.
   */
  lemma HighlightsAreGroups(text: string)
    requires Depth(text) == 0
    ensures var segs := StepNameSegments(text);
      forall i :: 0 <= i < |segs| && segs[i].Highlight? ==> Depth(segs[i].value) == 0 && NeverNegative(segs[i].value)
    ensures var segs := StepNameSegments(text);
      forall i :: 0 <= i < |segs| && segs[i].Normal? ==> '[' !in segs[i].value && ']' !in segs[i].value
  {
    assert text[..|text|] == text;
    CountIsDepth(text, |text|);
    ClosedGroupsBalanced(text, |text|);
    NormalSegmentsPlain(text);
  }

  /** A normal segment never holds a bracket, whatever the text: brackets only ever count or close. */
  lemma NormalSegmentsPlain(text: string)
    ensures var segs := StepNameSegments(text);
      forall i :: 0 <= i < |segs| && segs[i].Normal? ==> '[' !in segs[i].value && ']' !in segs[i].value
  {
    PendingPlain(text, |text|);
  }

  /** The pending text and every normal segment pushed so far hold no bracket. */
  lemma {:induction false} PendingPlain(text: string, n: nat)
    requires n <= |text|
    ensures var s := ScanUpTo(text, n);
      && '[' !in s.newText && ']' !in s.newText
      && forall i :: 0 <= i < |s.segments| && s.segments[i].Normal? ==>
           '[' !in s.segments[i].value && ']' !in s.segments[i].value
    decreases n
  {
    if n > 0 {
      PendingPlain(text, n - 1);
    }
  }

  /** Text without brackets is one normal segment, or none when empty. */
  lemma PlainText(text: string)
    requires forall i :: 0 <= i < |text| ==> text[i] != '[' && text[i] != ']'
    ensures StepNameSegments(text) == if |text| == 0 then [] else [Normal(text)]
  {
    PlainScan(text, |text|);
    assert text[..|text|] == text;
  }

  /**
   * A stray `]` drives the depth below zero. When no later `[` brings it back to zero, the
   * plain text before it is lost and the text after the last group start (here the first
   * character) becomes a highlight.
   */
  lemma StrayCloseExample()
    ensures StepNameSegments("a]b") == [Highlight("]b")]
  {
    var text := "a]b";
    assert ScanUpTo(text, 1) == Scanner(0, 0, "a", []);
    assert ScanUpTo(text, 2) == Scanner(-1, 0, "a", []);
    assert ScanUpTo(text, 3) == Scanner(-1, 0, "a", []);
    assert text[1..] == "]b";
  }

  /**
   * A `[` that brings a stray `]` back to depth zero opens no group: the plain text before
   * the `]` is kept, and everything from the `]` to that `[` is dropped.
   */
  lemma StrayCloseRecovered()
    ensures StepNameSegments("a]b[c") == [Normal("ac")]
  {
    var text := "a]b[c";
    assert ScanUpTo(text, 1) == Scanner(0, 0, "a", []);
    assert ScanUpTo(text, 2) == Scanner(-1, 0, "a", []);
    assert ScanUpTo(text, 3) == Scanner(-1, 0, "a", []);
    assert ScanUpTo(text, 4) == Scanner(0, 0, "a", []);
    assert ScanUpTo(text, 5) == Scanner(0, 0, "ac", []);
  }

  // ---------------------------------------------------------------------------
  // TextHighlighter, TextHighlighterText

  /** The maximum number of characters of a highlight shown before it is cut. */
  const LabelLimit: nat := 15

  /** The label `TextHighlighter` shows for a highlight: the first 15 characters and "..." when longer. */
  function HighlightLabel(value: string): (shown: string)
    ensures |value| <= LabelLimit ==> shown == value
    ensures |value| > LabelLimit ==> shown == value[..LabelLimit] + "..." && |shown| == LabelLimit + 3
  {
    if |value| > LabelLimit then value[..LabelLimit] + "..." else value
  }

  /** A label is its own label: cutting twice cuts no more. */
  lemma LabelIdempotent(value: string)
    ensures HighlightLabel(HighlightLabel(value)) == HighlightLabel(value)
  {
    if |value| > LabelLimit {
      var shown := HighlightLabel(value);
      assert shown[..LabelLimit] == value[..LabelLimit];
    }
  }

  /** One rendered span: its title, whether it is a highlight box, and the text it shows. */
  datatype Span = Span(title: string, highlighted: bool, shown: string)

  /**
   * `TextHighlighter({ text })`: a span per segment, titled with the whole value; a normal
   * segment shows its value, a highlight at most 18 characters: its first 15 and "..."
   * when the value is longer than 15.
   */
  function TextHighlighter(text: string): (spans: seq<Span>)
    ensures |spans| == |StepNameSegments(text)|
    ensures forall i :: 0 <= i < |spans| ==>
              var seg := StepNameSegments(text)[i];
              && spans[i].title == seg.value
              && (spans[i].highlighted <==> seg.Highlight?)
              && (seg.Normal? || |seg.value| <= LabelLimit ==> spans[i].shown == seg.value)
              && (seg.Highlight? && |seg.value| > LabelLimit ==>
                    spans[i].shown == seg.value[..LabelLimit] + "..." && |spans[i].shown| == LabelLimit + 3)
  {
    var segs := StepNameSegments(text);
    seq(|segs|, i requires 0 <= i < |segs| =>
      match segs[i]
      case Normal(v) => Span(v, false, v)
      case Highlight(v) => Span(v, true, HighlightLabel(v)))
  }

  /** `TextHighlighterText({ text })`: the segment values, in order. */
  function TextHighlighterText(text: string): (values: seq<string>)
    ensures |values| == |StepNameSegments(text)|
    ensures forall i :: 0 <= i < |values| ==> values[i] == StepNameSegments(text)[i].value
  {
    var segs := StepNameSegments(text);
    seq(|segs|, i requires 0 <= i < |segs| => segs[i].value)
  }

  /** On plain text the values are the text itself. */
  lemma PlainTextValues(text: string)
    requires forall i :: 0 <= i < |text| ==> text[i] != '[' && text[i] != ']'
    ensures TextHighlighterText(text) == if |text| == 0 then [] else [text]
  {
    PlainText(text);
  }

  // ---------------------------------------------------------------------------
  // transformStringSelectorsToArray

  datatype SelectorType = Playwright

  datatype Selector = Selector(kind: SelectorType, value: string, uniquenessScore: int)

  /** `transformStringSelectorsToArray(selectors)`: one playwright selector of score 1 per line. */
  function SelectorsFromString(selectors: string): (r: seq<Selector>)
    ensures |r| == Occurrences(selectors, '\n') + 1
    ensures forall i :: 0 <= i < |r| ==> r[i].kind == Playwright && r[i].uniquenessScore == 1 && '\n' !in r[i].value
    ensures Join(SelectorValues(r), '\n') == selectors
  {
    var lines := Split(selectors, '\n');
    var r := seq(|lines|, i requires 0 <= i < |lines| => Selector(Playwright, lines[i], 1));
    assert SelectorValues(r) == lines;
    JoinSplit(selectors, '\n');
    r
  }

  function SelectorValues(r: seq<Selector>): seq<string> {
    seq(|r|, i requires 0 <= i < |r| => r[i].value)
  }

  // ---------------------------------------------------------------------------
  // getErrorMessage

  /** The error kinds a failed step reports. */
  datatype StepErrorType = AssertionsFailed | Timeout | ElementNotFound | ElementNotStable | ElementNotVisible | OtherError

  /** The action type names of VALIDATE_SEO and ASSERT_ELEMENT; their spelled values are not part of this model. */
  datatype ActionTypeNames = ActionTypeNames(validateSeo: string, assertElement: string)

  /** `getErrorMessage(lastFailedStep)`. */
  function ErrorMessage(names: ActionTypeNames, errorType: StepErrorType, actionType: string): (m: string)
    ensures m in {"SEO assertions failed", "Element assertions failed", "assertions failed",
                  "element info couldn't be found", "unexpected error occurred"}
  {
    if errorType == AssertionsFailed then
      if actionType == names.validateSeo then "SEO assertions failed"
      else if actionType == names.assertElement then "Element assertions failed"
      else "assertions failed"
    else if errorType in {Timeout, ElementNotFound, ElementNotStable, ElementNotVisible} && HasPrefix(actionType, "ELEMENT_") then
      "element info couldn't be found"
    else "unexpected error occurred"
  }

  /**
   * An assertion message is given exactly for failed assertions (the SEO one for VALIDATE_SEO,
   * the element one for ASSERT_ELEMENT, the plain one otherwise, checked in that order); the
   * element message exactly for a timeout or element error on an `ELEMENT_` action;
   * everything else is unexpected.
   */
  lemma ErrorMessageClasses(names: ActionTypeNames, errorType: StepErrorType, actionType: string)
    ensures var m := ErrorMessage(names, errorType, actionType);
      && (m in {"SEO assertions failed", "Element assertions failed", "assertions failed"} <==> errorType == AssertionsFailed)
      && (m == "element info couldn't be found" <==>
            errorType != AssertionsFailed && errorType != OtherError && HasPrefix(actionType, "ELEMENT_"))
      && (m == "unexpected error occurred" <==>
            errorType != AssertionsFailed && (errorType == OtherError || !HasPrefix(actionType, "ELEMENT_")))
      && (errorType == AssertionsFailed && actionType == names.validateSeo ==> m == "SEO assertions failed")
      && (errorType == AssertionsFailed && actionType != names.validateSeo && actionType == names.assertElement ==>
            m == "Element assertions failed")
      && (errorType == AssertionsFailed && actionType != names.validateSeo && actionType != names.assertElement ==>
            m == "assertions failed")
  {
  }
}
