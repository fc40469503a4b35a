/** Cutting a stream of chunks into lines. */
module McpFraming {
  predicate IsSpace(c: char) {
    var n := c as int;
    0x9 <= n <= 0xD || n == 0x20 || n == 0xA0 || n == 0x1680 || 0x2000 <= n <= 0x200A || n == 0x2028 || n == 0x2029
    || n == 0x202F || n == 0x205F || n == 0x3000 || n == 0xFEFF
  }

  /** The twenty-five characters the platform counts as white space. */
  lemma SpacesAre(c: char)
    ensures IsSpace(c) <==> c as int in {9, 10, 11, 12, 13, 32, 160, 0x1680, 0x2000, 0x2001, 0x2002, 0x2003, 0x2004, 0x2005, 0x2006,
                                         0x2007, 0x2008, 0x2009, 0x200A, 0x2028, 0x2029, 0x202F, 0x205F, 0x3000, 0xFEFF}
  {
  }

  predicate AllSpace(s: string) {
    forall i :: 0 <= i < |s| ==> IsSpace(s[i])
  }

  /** The platform's `trim`. */
  function Trim(s: string): string {
    if s == "" then ""
    else if IsSpace(s[0]) then Trim(s[1..])
    else if IsSpace(s[|s| - 1]) then Trim(s[..|s| - 1])
    else s
  }

  predicate IsTrimmed(s: string) {
    s == "" || (!IsSpace(s[0]) && !IsSpace(s[|s| - 1]))
  }

  lemma {:induction false} TrimOnlyDropsSpace(s: string) returns (before: string, after: string)
    ensures s == before + Trim(s) + after && AllSpace(before) && AllSpace(after)
  {
    before, after := "", "";
    if s != "" && IsSpace(s[0]) {
      before, after := TrimOnlyDropsSpace(s[1..]);
      before := PutBefore(s, before, Trim(s[1..]), after);
    } else if s != "" && IsSpace(s[|s| - 1]) {
      before, after := TrimOnlyDropsSpace(s[..|s| - 1]);
      after := PutAfter(s, before, Trim(s[..|s| - 1]), after);
    }
  }

  lemma PutBefore(s: string, before: string, kept: string, after: string) returns (more: string)
    requires s != "" && IsSpace(s[0]) && s[1..] == before + kept + after && AllSpace(before)
    ensures s == more + kept + after && AllSpace(more)
  {
    more := [s[0]] + before;
  }

  lemma PutAfter(s: string, before: string, kept: string, after: string) returns (more: string)
    requires s != "" && IsSpace(s[|s| - 1]) && s[..|s| - 1] == before + kept + after && AllSpace(after)
    ensures s == before + kept + more && AllSpace(more)
  {
    more := after + [s[|s| - 1]];
  }

  lemma {:induction false} TrimmedAtBothEnds(s: string)
    ensures IsTrimmed(Trim(s))
  {
    if s != "" && IsSpace(s[0]) {
      TrimmedAtBothEnds(s[1..]);
    } else if s != "" && IsSpace(s[|s| - 1]) {
      TrimmedAtBothEnds(s[..|s| - 1]);
    }
  }

  /** A line is dropped exactly when it holds nothing but white space. */
  lemma {:induction false} BlankIff(s: string)
    ensures Trim(s) == "" <==> AllSpace(s)
  {
    var before, after := TrimOnlyDropsSpace(s);
    TrimmedAtBothEnds(s);
    if Trim(s) != "" {
      assert s[|before|] == Trim(s)[0];
    }
  }

  predicate OneLine(s: string) {
    forall j :: 0 <= j < |s| ==> s[j] != '\n'
  }

  /** The index of the first newline from `k` on, or -1. */
  function NewlineFrom(s: string, k: nat): (i: int)
    requires k <= |s|
    ensures i == -1 || k <= i < |s|
    ensures i >= 0 ==> s[i] == '\n'
    ensures forall j :: k <= j < (if i < 0 then |s| else i) ==> s[j] != '\n'
    decreases |s| - k
  {
    if k == |s| then -1 else if s[k] == '\n' then k else NewlineFrom(s, k + 1)
  }

  function NewlineAt(s: string): (i: int)
    ensures i == -1 || 0 <= i < |s|
    ensures i == -1 <==> OneLine(s)
    ensures i >= 0 ==> s[i] == '\n' && OneLine(s[..i])
  {
    NewlineFrom(s, 0)
  }

  // ---------------------------------------------------------------- segments

  /** The newline-terminated segments of `s`, without their newlines. */
  function Segments(s: string): seq<string>
    decreases |s|
  {
    var i := NewlineAt(s);
    if i < 0 then [] else [s[..i]] + Segments(s[i + 1..])
  }

  /** What follows the last newline. */
  function Tail(s: string): string
    decreases |s|
  {
    var i := NewlineAt(s);
    if i < 0 then s else Tail(s[i + 1..])
  }

  function Terminated(segments: seq<string>): string {
    if segments == [] then "" else segments[0] + "\n" + Terminated(segments[1..])
  }

  ghost predicate NoNewlines(segments: seq<string>) {
    forall k :: 0 <= k < |segments| ==> OneLine(segments[k])
  }

  lemma TerminatedGrows(first: string, others: seq<string>)
    ensures Terminated([first] + others) == first + "\n" + Terminated(others)
  {
    assert ([first] + others)[1..] == others;
  }

  lemma Regroup(a: string, b: string, c: string, d: string)
    ensures (a + b + c) + d == a + b + (c + d)
  {
  }

  lemma CutAt(s: string, i: nat)
    requires i < |s| && s[i] == '\n'
    ensures s == s[..i] + "\n" + s[i + 1..]
  {
  }

  lemma {:induction false} SegmentsRejoin(s: string)
    ensures Terminated(Segments(s)) + Tail(s) == s
    decreases |s|
  {
    var i := NewlineAt(s);
    if i >= 0 {
      var first, rest := s[..i], s[i + 1..];
      SegmentsRejoin(rest);
      TerminatedGrows(first, Segments(rest));
      Regroup(first, "\n", Terminated(Segments(rest)), Tail(rest));
      CutAt(s, i);
    }
  }

  lemma SegmentsUnfold(s: string, i: nat)
    requires i == NewlineAt(s)
    ensures Segments(s) == [s[..i]] + Segments(s[i + 1..]) && Tail(s) == Tail(s[i + 1..])
  {
  }

  lemma ConsNoNewlines(first: string, others: seq<string>)
    requires OneLine(first) && NoNewlines(others)
    ensures NoNewlines([first] + others)
  {
  }

  lemma {:induction false} SegmentsHoldNoNewline(s: string)
    ensures NoNewlines(Segments(s)) && OneLine(Tail(s))
    decreases |s|
  {
    var i := NewlineAt(s);
    if i >= 0 {
      var first, rest := s[..i], s[i + 1..];
      SegmentsHoldNoNewline(rest);
      SegmentsUnfold(s, i);
      ConsNoNewlines(first, Segments(rest));
    }
  }

  lemma FirstNewline(a: string, rest: string)
    requires OneLine(a)
    ensures NewlineAt(a + "\n" + rest) == |a|
    ensures (a + "\n" + rest)[..|a|] == a && (a + "\n" + rest)[|a| + 1..] == rest
  {
    var s := a + "\n" + rest;
    var i := NewlineAt(s);
    assert s[|a|] == '\n';
    assert forall k :: 0 <= k < |a| ==> s[k] == a[k];
    assert i >= 0 && forall k :: 0 <= k < i ==> s[k] == s[..i][k];
  }

  lemma CutOne(a: string, rest: string)
    requires OneLine(a)
    ensures Segments(a + "\n" + rest) == [a] + Segments(rest) && Tail(a + "\n" + rest) == Tail(rest)
  {
    FirstNewline(a, rest);
  }

  lemma {:induction false} CutAfter(segments: seq<string>, rest: string)
    requires NoNewlines(segments)
    ensures Segments(Terminated(segments) + rest) == segments + Segments(rest)
    ensures Tail(Terminated(segments) + rest) == Tail(rest)
  {
    if segments == [] {
      assert "" + rest == rest;
      assert segments + Segments(rest) == Segments(rest);
    } else {
      var first, others := segments[0], segments[1..];
      CutAfter(others, rest);
      CutFront(first, others, rest, Terminated(others));
      assert segments == [first] + others;
      TerminatedGrows(first, others);
    }
  }

  lemma CutFront(first: string, others: seq<string>, rest: string, text: string)
    requires OneLine(first) && Segments(text + rest) == others + Segments(rest) && Tail(text + rest) == Tail(rest)
    ensures Segments(first + "\n" + text + rest) == [first] + others + Segments(rest)
    ensures Tail(first + "\n" + text + rest) == Tail(rest)
  {
    var later, cut := text + rest, Segments(rest);
    Regroup(first, "\n", text, rest);
    CutOne(first, later);
    assert [first] + (others + cut) == [first] + others + cut;
  }

  /** There is one way to write a stream as terminated segments and an unterminated tail. */
  lemma SegmentsIff(s: string, segments: seq<string>, tail: string)
    ensures s == Terminated(segments) + tail && NoNewlines(segments) && OneLine(tail) <==>
            segments == Segments(s) && tail == Tail(s)
  {
    SegmentsRejoin(s);
    SegmentsHoldNoNewline(s);
    if s == Terminated(segments) + tail && NoNewlines(segments) && OneLine(tail) {
      CutAfter(segments, tail);
      assert segments + [] == segments;
    }
  }

  lemma CutsCompose(a: string, b: string)
    ensures Segments(a + b) == Segments(a) + Segments(Tail(a) + b) && Tail(a + b) == Tail(Tail(a) + b)
  {
    SegmentsRejoin(a);
    SegmentsHoldNoNewline(a);
    var whole, tail := Segments(a), Tail(a);
    CutAfter(whole, tail + b);
    assert a + b == Terminated(whole) + (tail + b);
  }

  // ---------------------------------------------------------------- the reader

  datatype Event = Handled(line: string) | ParseError(line: string)

  /** What one segment leads to: nothing when blank, else its trimmed line parsed and handled. */
  function EventOf(segment: string, parses: string -> bool): seq<Event> {
    var line := Trim(segment);
    if line == "" then [] else [if parses(line) then Handled(line) else ParseError(line)]
  }

  function Events(segments: seq<string>, parses: string -> bool): seq<Event> {
    if segments == [] then [] else Events(segments[..|segments| - 1], parses) + EventOf(segments[|segments| - 1], parses)
  }

  lemma EventsGrow(whole: seq<string>, segments: seq<string>, last: string, parses: string -> bool)
    requires whole == segments + [last]
    ensures Events(whole, parses) == Events(segments, parses) + EventOf(last, parses)
  {
    assert whole[..|whole| - 1] == segments;
  }

  /** A blank segment leads to nothing, any other to one event with its trimmed text: handled when it parses and
      reported as an error when not. */
  lemma EventMeans(segment: string, parses: string -> bool)
    ensures EventOf(segment, parses) ==
            if AllSpace(segment) then []
            else [if parses(Trim(segment)) then Handled(Trim(segment)) else ParseError(Trim(segment))]
  {
    BlankIff(segment);
  }

  /** Events come in the order of their segments. */
  lemma {:induction false} EventsFollowSegments(segments: seq<string>, parses: string -> bool, i: nat)
    requires i < |segments|
    ensures Events(segments[..i + 1], parses) == Events(segments[..i], parses) + EventOf(segments[i], parses)
    ensures Events(segments[..i + 1], parses) <= Events(segments, parses)
    decreases |segments|
  {
    var n := |segments| - 1;
    if i < n {
      EventsFollowSegments(segments[..n], parses, i);
      assert segments[..n][..i] == segments[..i] && segments[..n][..i + 1] == segments[..i + 1];
      EventsGrow(segments, segments[..n], segments[n], parses);
    } else {
      assert segments[..i + 1] == segments;
    }
  }

  lemma RegroupEvents(a: seq<Event>, b: seq<Event>, c: seq<Event>)
    ensures a + b + c == a + (b + c)
  {
  }

  /** Part of `whole` has been cut off as `done` and handled; `buffer` is left. */
  ghost predicate Midway(whole: string, start: seq<Event>, done: seq<string>, buffer: string, events: seq<Event>, parses: string -> bool) {
    done + Segments(buffer) == Segments(whole) && Tail(buffer) == Tail(whole) && events == start + Events(done, parses)
  }

  lemma MidwayStep(whole: string, start: seq<Event>, done: seq<string>, cut: string, events: seq<Event>, segment: string,
                   rest: string, parses: string -> bool)
    requires Midway(whole, start, done, cut, events, parses)
    requires Segments(cut) == [segment] + Segments(rest) && Tail(cut) == Tail(rest)
    ensures Midway(whole, start, done + [segment], rest, events + EventOf(segment, parses), parses)
  {
    RegroupSegments(done, segment, Segments(rest));
    EventsGrow(done + [segment], done, segment, parses);
    RegroupEvents(start, Events(done, parses), EventOf(segment, parses));
  }

  lemma RegroupSegments(done: seq<string>, segment: string, later: seq<string>)
    ensures done + ([segment] + later) == done + [segment] + later
  {
  }

  lemma {:induction false} EventsCompose(a: seq<string>, b: seq<string>, parses: string -> bool)
    ensures Events(a + b, parses) == Events(a, parses) + Events(b, parses)
  {
    if b == [] {
      assert a + b == a;
    } else {
      var c, last := b[..|b| - 1], b[|b| - 1];
      EventsCompose(a, c, parses);
      EventsComposeNext(a, c, last, b, a + b, a + c, parses);
    }
  }

  lemma SnocLast(a: seq<string>, c: seq<string>, last: string)
    ensures a + (c + [last]) == a + c + [last]
  {
  }

  lemma EventsComposeNext(a: seq<string>, c: seq<string>, last: string, b: seq<string>, ab: seq<string>, ac: seq<string>,
                          parses: string -> bool)
    requires b == c + [last] && ab == a + b && ac == a + c
    requires Events(ac, parses) == Events(a, parses) + Events(c, parses)
    ensures Events(ab, parses) == Events(a, parses) + Events(b, parses)
  {
    SnocLast(a, c, last);
    EventsGrow(b, c, last, parses);
    EventsGrow(ab, ac, last, parses);
    RegroupEvents(Events(a, parses), Events(c, parses), EventOf(last, parses));
  }

  class LineReader {
    var buffer: string
    var events: seq<Event>

    constructor ()
      ensures buffer == "" && events == []
    {
      buffer, events := "", [];
    }

    method OnData(chunk: string, parses: string -> bool)
      modifies this
      ensures buffer == Tail(old(buffer) + chunk)
      ensures events == old(events) + Events(Segments(old(buffer) + chunk), parses)
    {
      buffer := buffer + chunk;
      Drain(parses);
    }

    /** The loop over the complete lines in the buffer. */
    method Drain(parses: string -> bool)
      modifies this
      ensures buffer == Tail(old(buffer))
      ensures events == old(events) + Events(Segments(old(buffer)), parses)
    {
      ghost var whole, start := buffer, events;
      ghost var done: seq<string> := [];
      assert Midway(whole, start, done, buffer, events, parses);
      var idx := NewlineAt(buffer);
      while idx >= 0
        invariant idx == NewlineAt(buffer) && Midway(whole, start, done, buffer, events, parses)
        decreases |buffer|
      {
        ghost var cut, had := buffer, events;
        var segment := CutFirst(idx);
        Handle(segment, parses);
        MidwayStep(whole, start, done, cut, had, segment, buffer, parses);
        done := done + [segment];
        idx := NewlineAt(buffer);
      }
      assert done + [] == done;
    }

    method CutFirst(idx: nat) returns (segment: string)
      requires idx == NewlineAt(buffer)
      modifies this`buffer
      ensures Segments(old(buffer)) == [segment] + Segments(buffer) && Tail(old(buffer)) == Tail(buffer)
      ensures |buffer| < |old(buffer)|
    {
      SegmentsUnfold(buffer, idx);
      segment := buffer[..idx];
      buffer := buffer[idx + 1..];
    }

    method Handle(segment: string, parses: string -> bool)
      modifies this`events
      ensures events == old(events) + EventOf(segment, parses)
    {
      var line := Trim(segment);
      if line == "" {
        return;
      }
      events := events + [if parses(line) then Handled(line) else ParseError(line)];
    }
  }

  function Joined(chunks: seq<string>): string {
    if chunks == [] then "" else Joined(chunks[..|chunks| - 1]) + chunks[|chunks| - 1]
  }

  /** Buffer and events after the chunks, one `OnData` each. */
  function Received(chunks: seq<string>, parses: string -> bool): (string, seq<Event>) {
    if chunks == [] then ("", [])
    else
      var (buffer, events) := Received(chunks[..|chunks| - 1], parses);
      var s := buffer + chunks[|chunks| - 1];
      (Tail(s), events + Events(Segments(s), parses))
  }

  method ReadAll(chunks: seq<string>, parses: string -> bool) returns (r: LineReader)
    ensures fresh(r) && (r.buffer, r.events) == Received(chunks, parses)
  {
    r := new LineReader();
    for n := 0 to |chunks|
      invariant fresh(r) && (r.buffer, r.events) == Received(chunks[..n], parses)
    {
      assert chunks[..n + 1][..n] == chunks[..n];
      r.OnData(chunks[n], parses);
    }
    assert chunks[..|chunks|] == chunks;
  }

  /** However the input is cut into chunks, the lines handed on are the trimmed non-blank terminated
      segments of the whole input, in order, and the buffer holds the unterminated rest. */
  lemma {:induction false} FramingIgnoresChunks(chunks: seq<string>, parses: string -> bool)
    ensures Received(chunks, parses) == (Tail(Joined(chunks)), Events(Segments(Joined(chunks)), parses))
  {
    if chunks != [] {
      var n := |chunks| - 1;
      var a, b := Joined(chunks[..n]), chunks[n];
      FramingIgnoresChunks(chunks[..n], parses);
      CutsCompose(a, b);
      EventsCompose(Segments(a), Segments(Tail(a) + b), parses);
    }
  }
}
