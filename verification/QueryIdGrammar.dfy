/**
 The normal form of a query from its text: what is a gap and what is kept, each by its
 characters, and one space for the gaps between two kept parts.
 */
module QueryIdGrammar {
  import opened Wrappers
  import opened SqlLex
  import opened SqlGrammar
  import opened QueryId

  // The white space of ECMAScript, section 12.2 and 12.3: what \s matches.
  const WHITE := "\t\n\U{b}\U{c}\r \U{a0}\U{1680}\U{2000}\U{2001}\U{2002}\U{2003}\U{2004}\U{2005}\U{2006}\U{2007}\U{2008}\U{2009}\U{200a}\U{2028}\U{2029}\U{202f}\U{205f}\U{3000}\U{feff}"

  lemma WhiteIsSpace(c: char)
    ensures IsSpace(c) <==> c in WHITE
  {
  }

  // A part of a query: white space or a comment, or something to keep.
  datatype Segment = Gap(text: string) | Kept(text: string)

  ghost predicate IsGap(text: string, rest: string) {
    (|text| == 1 && text[0] in WHITE) || IsLine(text, rest) || IsBlock(text, rest)
  }

  // A literal, a quoted identifier, a dollar-quoted body, or a character at which nothing starts.
  ghost predicate IsKept(pre: string, text: string, rest: string) {
    || IsLiteral(pre, text, rest) || IsIdentifier(text, rest) || IsDollar(pre, text, rest)
    || (&& |text| == 1 && text[0] !in WHITE && text != "'" && text != "\""
        && !Starts2(text + rest, '-', '-') && !Starts2(text + rest, '/', '*')
        && (text == "$" ==> BehindWord(pre) || !OpensSome(rest)))
  }

  ghost predicate SegmentAt(pre: string, s: Segment, rest: string) {
    s.text != [] && if s.Gap? then IsGap(s.text, rest) else IsKept(pre, s.text, rest)
  }

  // The parts of a text behind `pre`, one after the other.
  ghost predicate Segments(pre: string, segments: seq<Segment>, t: string)
    decreases |t|
  {
    if segments == [] then t == []
    else
      var s := segments[0];
      var n := |s.text|;
      && 0 < n <= |t| && t[..n] == s.text && SegmentAt(pre, s, t[n..])
      && Segments(pre + s.text, segments[1..], t[n..])
  }

  predicate KeepsSome(segments: seq<Segment>) {
    exists s <- segments :: s.Kept?
  }

  // The parts that are kept, with one space for each run of gaps between two of them.
  function Rendered(segments: seq<Segment>): string
    decreases |segments|, 0
  {
    if segments == [] then ""
    else if segments[0].Gap? then Rendered(segments[1..])
    else segments[0].text + Behind(segments[1..])
  }

  // Behind a part that was kept.
  function Behind(segments: seq<Segment>): string
    decreases |segments|, 1
  {
    if !KeepsSome(segments) then ""
    else (if segments[0].Gap? then " " else "") + Rendered(segments)
  }

  // What is read of a text that starts with a segment.
  lemma SegmentIsRead(pre: string, s: Segment, rest: string)
    requires s.text != []
    ensures var t := s.text + rest;
            SegmentAt(pre, s, rest) <==> StepLen(ContextOf(pre), t) == |s.text| && (Skips(ContextOf(pre), t) <==> s.Gap?)
  {
    var t := s.text + rest;
    if Special(ContextOf(pre), t).Some? {
      SpecialExactly(pre, s.text, rest);
      SpecialIsNoSingle(pre, s.text, rest);
      hide Special, ContextOf, IsLine, IsBlock, IsLiteral, IsIdentifier, IsDollar, IsSpace;
      SpecialIsNoSpace(pre, t);
    } else {
      SingleIsRead(pre, s, rest);
    }
  }

  lemma SpecialIsNoSpace(pre: string, t: string)
    requires t != [] && Special(ContextOf(pre), t).Some?
    ensures !IsSpace(t[0])
  {
    SpecialStarts(pre, t);
    hide LineLen, BlockLen, QuoteLen, DollarLen, Special, ContextOf, BehindEscape, OpensSome;
  }

  // Where a special token starts no single character is kept or skipped.
  lemma SpecialIsNoSingle(pre: string, text: string, rest: string)
    requires text != [] && Special(ContextOf(pre), text + rest).Some?
    ensures |text| == 1 ==>
              && text[0] !in WHITE
              && !(&& text != "'" && text != "\"" && !Starts2(text + rest, '-', '-') && !Starts2(text + rest, '/', '*')
                   && (text == "$" ==> BehindWord(pre) || !OpensSome(rest)))
  {
    var t := text + rest;
    SpecialIsNoSpace(pre, t);
    WhiteIsSpace(t[0]);
    SpecialStarts(pre, t);
    hide LineLen, BlockLen, QuoteLen, DollarLen, Special, ContextOf, BehindEscape, OpensSome, IsSpace;
    if |text| == 1 {
      assert text == [t[0]] && t[1..] == rest;
    }
  }

  lemma SingleIsRead(pre: string, s: Segment, rest: string)
    requires s.text != [] && Special(ContextOf(pre), s.text + rest).None?
    ensures var t := s.text + rest;
            SegmentAt(pre, s, rest) <==> StepLen(ContextOf(pre), t) == |s.text| && (Skips(ContextOf(pre), t) <==> s.Gap?)
  {
    var text := s.text;
    var t := text + rest;
    WhiteIsSpace(t[0]);
    SpecialStarts(pre, t);
    NotDollarHere(pre, text, rest);
    hide LineLen, BlockLen, QuoteLen, DollarLen, Special, ContextOf, LineRest, Quoted, DollarNamed, BlockSteps, Concat,
      BehindEscape, IsSpace, OpensSome, IsDollar;
    if |text| == 1 {
      assert text == [t[0]] && t[1..] == rest;
    }
  }

  lemma NotDollarHere(pre: string, text: string, rest: string)
    requires text != []
    ensures !((text + rest)[0] == '$' && !BehindWord(pre) && OpensSome((text + rest)[1..])) ==> !IsDollar(pre, text, rest)
  {
    if !((text + rest)[0] == '$' && !BehindWord(pre) && OpensSome((text + rest)[1..])) {
      NotDollar(pre, text, rest);
    }
  }

  // ------------------------------------------------------------- the normal form

  // The parts that are read one after the other.
  function SegmentsOf(pre: string, t: string): seq<Segment>
    decreases |t|
  {
    if t == [] then []
    else
      var n := StepLen(ContextOf(pre), t);
      var s := if Skips(ContextOf(pre), t) then Gap(t[..n]) else Kept(t[..n]);
      [s] + SegmentsOf(pre + t[..n], t[n..])
  }

  lemma {:induction false} SegmentsAreRead(pre: string, t: string)
    ensures Segments(pre, SegmentsOf(pre, t), t)
    decreases |t|
  {
    if t == [] {
    } else {
      var n := StepLen(ContextOf(pre), t);
      var s := if Skips(ContextOf(pre), t) then Gap(t[..n]) else Kept(t[..n]);
      assert t == t[..n] + t[n..];
      SegmentIsRead(pre, s, t[n..]);
      SegmentsAreRead(pre + t[..n], t[n..]);
      hide SegmentAt, StepLen, Skips, ContextOf;
      assert SegmentsOf(pre, t)[1..] == SegmentsOf(pre + t[..n], t[n..]);
    }
  }

  // Every division of a text into parts is the one that is read.
  lemma {:induction false} SegmentsAreUnique(pre: string, segments: seq<Segment>, t: string)
    requires Segments(pre, segments, t)
    ensures segments == SegmentsOf(pre, t)
    decreases |t|
  {
    if segments == [] {
    } else {
      var s := segments[0];
      var n := |s.text|;
      assert t == s.text + t[n..];
      SegmentIsRead(pre, s, t[n..]);
      SegmentsAreUnique(pre + s.text, segments[1..], t[n..]);
      hide SegmentAt, StepLen, Skips, ContextOf;
      assert segments == [s] + segments[1..];
      assert s == if s.Gap? then Gap(t[..n]) else Kept(t[..n]);
    }
  }

  lemma KeepsMore(s: Segment, more: seq<Segment>)
    ensures KeepsSome([s] + more) <==> s.Kept? || KeepsSome(more)
  {
    if x :| x in more && x.Kept? {
      assert x in [s] + more;
    }
    assert s in [s] + more;
  }

  // What the loop still writes: before anything was kept, with a space due, and right behind
  // something that was kept.
  function Written(segments: seq<Segment>, started: bool, pending: bool): string {
    if !started then Rendered(segments)
    else if pending then (if KeepsSome(segments) then " " + Rendered(segments) else "")
    else Behind(segments)
  }

  lemma WrittenStep(s: Segment, more: seq<Segment>, started: bool, pending: bool)
    requires pending ==> started
    ensures Written([s] + more, started, pending)
         == if s.Gap? then Written(more, started, pending || started)
            else (if pending && started then " " else "") + s.text + Written(more, true, false)
  {
    var segments := [s] + more;
    assert segments[1..] == more && segments[0] == s;
    KeepsMore(s, more);
    assert Rendered(segments) == if s.Gap? then Rendered(more) else s.text + Behind(more);
    assert Behind(segments)
        == if !KeepsSome(segments) then "" else (if s.Gap? then " " else "") + Rendered(segments);
    hide KeepsSome, Rendered, Behind;
    Glue(s.text, Behind(more));
  }

  lemma Glue(x: string, y: string)
    ensures "" + x + y == x + y == "" + (x + y) && " " + (x + y) == " " + x + y
  {
  }

  lemma {:induction false} NormIsWritten(pre: string, t: string, started: bool, pending: bool)
    requires pending ==> started
    ensures Norm(ContextOf(pre), t, started, pending) == Written(SegmentsOf(pre, t), started, pending)
    decreases |t|
  {
    if t == [] {
    } else {
      var c := ContextOf(pre);
      var n := StepLen(c, t);
      var s := if Skips(c, t) then Gap(t[..n]) else Kept(t[..n]);
      var more := SegmentsOf(pre + t[..n], t[n..]);
      ContextExtends(pre, t[..n]);
      WrittenStep(s, more, started, pending);
      assert SegmentsOf(pre, t) == [s] + more;
      hide StepLen, ContextOf, Extend, Written, SegmentsOf;
      if Skips(c, t) {
        NormIsWritten(pre + t[..n], t[n..], started, pending || started);
        NormSkip(c, t, started, pending);
      } else {
        NormIsWritten(pre + t[..n], t[n..], true, false);
        NormPiece(c, t, started, pending);
      }
    }
  }

  // Main result: a query has exactly one division into gaps and kept parts, and its normal form
  // is the kept parts with one space for the gaps between them.
  lemma NormalizesExactly(query: string)
    ensures exists segments :: Segments("", segments, query)
    ensures forall segments :: Segments("", segments, query) ==> Normalize(query) == Rendered(segments)
  {
    SegmentsAreRead("", query);
    NormIsWritten("", query, false, false);
    forall segments | Segments("", segments, query) ensures Normalize(query) == Rendered(segments) {
      SegmentsAreUnique("", segments, query);
    }
    hide Segments, SegmentsOf, Norm;
  }
}
