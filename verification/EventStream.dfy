/** The event-stream parser of sparkmeter/metering/http_sse.py, with the encoding it inverts. */
module EventStream {
  import opened Text

  // A line of the response, without its terminator.
  type Line = string

  predicate StartsWith(s: string, prefix: string) {
    prefix <= s
  }

  // str.lstrip(" ")
  function StripSpaces(s: string): (r: string)
    ensures |r| <= |s| && (r == s <==> !StartsWith(s, " "))
  {
    if s != "" && s[0] == ' ' then StripSpaces(s[1..]) else s
  }

  datatype Parser = Parser(payloads: seq<string>, dataLines: seq<string>)

  function Feed(p: Parser, line: Line): Parser {
    if line == "" then
      if p.dataLines != [] then Parser(p.payloads + [Join("\n", p.dataLines)], []) else p
    else if StartsWith(line, ":") then p
    else if StartsWith(line, "data:") then p.(dataLines := p.dataLines + [StripSpaces(line[5..])])
    else p
  }

  function FeedAll(p: Parser, lines: seq<Line>): Parser
    decreases |lines|
  {
    if lines == [] then p else FeedAll(Feed(p, lines[0]), lines[1..])
  }

  function Finish(p: Parser): seq<string> {
    if p.dataLines != [] then p.payloads + [Join("\n", p.dataLines)] else p.payloads
  }

  function Payloads(lines: seq<Line>): seq<string> {
    Finish(FeedAll(Parser([], []), lines))
  }

  method IterSseDataPayloads(lines: seq<Line>) returns (payloads: seq<string>)
    ensures payloads == Payloads(lines)
  {
    payloads := [];
    var dataLines: seq<string> := [];
    for i := 0 to |lines|
      invariant FeedAll(Parser(payloads, dataLines), lines[i..]) == FeedAll(Parser([], []), lines)
    {
      var line := lines[i];
      if line == "" {
        if dataLines != [] {
          payloads := payloads + [Join("\n", dataLines)];
          dataLines := [];
        }
        continue;
      }
      if StartsWith(line, ":") {
        continue;
      }
      if StartsWith(line, "data:") {
        dataLines := dataLines + [StripSpaces(line[5..])];
      }
    }
    if dataLines != [] {
      payloads := payloads + [Join("\n", dataLines)];
    }
  }

  // ---------- lines that do not matter ----------

  // Comments, event:, id: and retry: lines, and anything else that is neither blank nor data.
  predicate Ignored(line: Line) {
    line != "" && (StartsWith(line, ":") || !StartsWith(line, "data:"))
  }

  function Relevant(lines: seq<Line>): seq<Line> {
    if lines == [] then []
    else (if Ignored(lines[0]) then [] else [lines[0]]) + Relevant(lines[1..])
  }

  lemma {:induction false} IgnoredLinesFeedNothing(p: Parser, lines: seq<Line>)
    ensures FeedAll(p, lines) == FeedAll(p, Relevant(lines))
    decreases |lines|
  {
    if lines != [] {
      IgnoredLinesFeedNothing(Feed(p, lines[0]), lines[1..]);
      if Ignored(lines[0]) {
        assert Relevant(lines) == Relevant(lines[1..]);
      } else {
        assert Relevant(lines)[1..] == Relevant(lines[1..]);
      }
    }
  }

  /** Streams that differ only in ignored lines, wherever those stand, carry the same payloads. */
  lemma IgnoredLinesChangeNothing(first: seq<Line>, second: seq<Line>)
    requires Relevant(first) == Relevant(second)
    ensures Payloads(first) == Payloads(second)
  {
    IgnoredLinesFeedNothing(Parser([], []), first);
    IgnoredLinesFeedNothing(Parser([], []), second);
  }

  lemma {:induction false} RelevantAppend(a: seq<Line>, b: seq<Line>)
    ensures Relevant(a + b) == Relevant(a) + Relevant(b)
  {
    if a == [] {
      assert a + b == b;
    } else {
      assert (a + b)[1..] == a[1..] + b;
      RelevantAppend(a[1..], b);
    }
  }

  lemma InsertingAnIgnoredLine(before: seq<Line>, noise: Line, after: seq<Line>)
    requires Ignored(noise)
    ensures Payloads(before + [noise] + after) == Payloads(before + after)
  {
    RelevantAppend(before + [noise], after);
    RelevantAppend(before, [noise]);
    RelevantAppend(before, after);
    assert Relevant([noise]) == [];
    IgnoredLinesChangeNothing(before + [noise] + after, before + after);
  }

  // ---------- events are the stretches between blank lines ----------

  // What the data lines of a stretch carry.
  function DataOf(lines: seq<Line>): seq<string> {
    if lines == [] then []
    else (if "data:" <= lines[0] then [StripSpaces(lines[0][5..])] else []) + DataOf(lines[1..])
  }

  function Spaces(n: nat): string {
    seq(n, _ => ' ')
  }

  /** A data line carries what follows its colon, without leading spaces and with or without any. */
  lemma {:induction false} DataLineCarries(n: nat, text: string)
    requires text == "" || text[0] != ' '
    ensures DataOf(["data:" + Spaces(n) + text]) == [text]
  {
    var line := "data:" + Spaces(n) + text;
    assert line[5..] == Spaces(n) + text;
    LeadingSpacesGo(n, text);
    assert [line][1..] == [];
  }

  lemma {:induction false} LeadingSpacesGo(n: nat, text: string)
    requires text == "" || text[0] != ' '
    ensures StripSpaces(Spaces(n) + text) == text
  {
    if n == 0 {
      assert Spaces(n) + text == text;
    } else {
      assert (Spaces(n) + text)[1..] == Spaces(n - 1) + text;
      LeadingSpacesGo(n - 1, text);
    }
  }

  lemma {:induction false} FeedStretch(p: Parser, lines: seq<Line>)
    requires "" !in lines
    ensures FeedAll(p, lines) == p.(dataLines := p.dataLines + DataOf(lines))
    decreases |lines|
  {
    if lines == [] {
      assert p.dataLines + DataOf(lines) == p.dataLines;
    } else {
      var line, next := lines[0], Feed(p, lines[0]);
      assert line in lines && line != "";
      FeedStretch(next, lines[1..]);
      var first := if "data:" <= line then [StripSpaces(line[5..])] else [];
      assert StartsWith(line, ":") ==> line[0] == ':';
      assert StartsWith(line, "data:") ==> line[0] == 'd';
      assert p.dataLines + [] == p.dataLines;
      assert next == p.(dataLines := p.dataLines + first);
      assert p.dataLines + first + DataOf(lines[1..]) == p.dataLines + DataOf(lines);
    }
  }

  lemma {:induction false} FeedIgnoresPast(p: Parser, past: seq<string>, lines: seq<Line>)
    ensures FeedAll(p.(payloads := past + p.payloads), lines)
            == FeedAll(p, lines).(payloads := past + FeedAll(p, lines).payloads)
    decreases |lines|
  {
    if lines != [] {
      var next := Feed(p, lines[0]);
      assert Feed(p.(payloads := past + p.payloads), lines[0]) == next.(payloads := past + next.payloads);
      FeedIgnoresPast(next, past, lines[1..]);
    }
  }

  /** A stretch without a blank line is one event, and none when it has no data line; the last needs no blank line. */
  lemma StretchIsOneEvent(lines: seq<Line>)
    requires "" !in lines
    ensures Payloads(lines) == if DataOf(lines) == [] then [] else [Join("\n", DataOf(lines))]
  {
    FeedStretch(Parser([], []), lines);
    assert [] + DataOf(lines) == DataOf(lines);
  }

  /** A blank line ends an event: what comes before and after it is parsed on its own. */
  lemma BlankLineSeparates(before: seq<Line>, after: seq<Line>)
    ensures Payloads(before + [""] + after) == Payloads(before) + Payloads(after)
  {
    var start := Parser([], []);
    FeedAppend(start, before + [""], after);
    FeedAppend(start, before, [""]);
    var p := FeedAll(start, before);
    assert FeedAll(p, [""]) == Feed(p, "") == Parser(Finish(p), []) by {
      assert [""][1..] == [];
      assert FeedAll(Feed(p, ""), []) == Feed(p, "");
    }
    FeedIgnoresPast(start, Finish(p), after);
    assert Finish(p) + [] == Finish(p);
  }

  // ---------- the round trip ----------

  // The pieces of a payload between its newlines.
  function Pieces(payload: string): (pieces: seq<string>)
    ensures pieces != []
  {
    Split(payload, '\n')
  }

  function DataLine(piece: string): Line {
    "data: " + piece
  }

  function DataLines(pieces: seq<string>): seq<Line> {
    if pieces == [] then [] else [DataLine(pieces[0])] + DataLines(pieces[1..])
  }

  function Encode(payloads: seq<string>): seq<Line> {
    if payloads == [] then [] else DataLines(Pieces(payloads[0])) + [""] + Encode(payloads[1..])
  }

  function StripAll(pieces: seq<string>): seq<string> {
    if pieces == [] then [] else [StripSpaces(pieces[0])] + StripAll(pieces[1..])
  }

  // What a payload becomes on the way: its pieces lose their leading spaces.
  function Stripped(payload: string): string {
    Join("\n", StripAll(Pieces(payload)))
  }

  function StrippedPayloads(payloads: seq<string>): seq<string> {
    if payloads == [] then [] else [Stripped(payloads[0])] + StrippedPayloads(payloads[1..])
  }

  predicate NoLeadingSpace(pieces: seq<string>) {
    forall i :: 0 <= i < |pieces| ==> !StartsWith(pieces[i], " ")
  }

  lemma {:induction false} FeedAppend(p: Parser, a: seq<Line>, b: seq<Line>)
    ensures FeedAll(p, a + b) == FeedAll(FeedAll(p, a), b)
    decreases |a|
  {
    if a == [] {
      assert a + b == b;
    } else {
      assert (a + b)[1..] == a[1..] + b;
      FeedAppend(Feed(p, a[0]), a[1..], b);
    }
  }

  lemma FeedDataLine(p: Parser, piece: string)
    ensures Feed(p, DataLine(piece)) == p.(dataLines := p.dataLines + [StripSpaces(piece)])
  {
    var line := DataLine(piece);
    assert line[..5] == "data:";
    assert line[0] == 'd';
    assert line[5..] == " " + piece && (" " + piece)[1..] == piece;
  }

  lemma Reassociate<T>(a: seq<T>, b: seq<T>, c: seq<T>)
    ensures a + b + c == a + (b + c)
  {}

  lemma {:induction false} FeedDataLines(p: Parser, pieces: seq<string>)
    ensures FeedAll(p, DataLines(pieces)) == p.(dataLines := p.dataLines + StripAll(pieces))
    decreases |pieces|
  {
    hide Feed, StripSpaces, DataLine;
    if pieces == [] {
      assert p.dataLines + StripAll(pieces) == p.dataLines;
    } else {
      var first, rest := pieces[0], pieces[1..];
      var p1 := p.(dataLines := p.dataLines + [StripSpaces(first)]);
      assert FeedAll(p, DataLines(pieces)) == FeedAll(p1, DataLines(rest)) by {
        FeedDataLine(p, first);
        assert DataLines(pieces)[0] == DataLine(first);
        assert DataLines(pieces)[1..] == DataLines(rest);
      }
      FeedDataLines(p1, rest);
      Reassociate(p.dataLines, [StripSpaces(first)], StripAll(rest));
    }
  }

  lemma FeedPayload(done: seq<string>, payload: string)
    ensures FeedAll(Parser(done, []), DataLines(Pieces(payload)) + [""]) == Parser(done + [Stripped(payload)], [])
  {
    hide Pieces, Join;
    var pieces := Pieces(payload);
    FeedAppend(Parser(done, []), DataLines(pieces), [""]);
    FeedDataLines(Parser(done, []), pieces);
    assert [] + StripAll(pieces) == StripAll(pieces) != [];
    assert FeedAll(Parser(done, StripAll(pieces)), [""])
        == FeedAll(Feed(Parser(done, StripAll(pieces)), ""), []);
  }

  lemma {:induction false} FeedEncoded(done: seq<string>, payloads: seq<string>)
    ensures FeedAll(Parser(done, []), Encode(payloads)) == Parser(done + StrippedPayloads(payloads), [])
    decreases |payloads|
  {
    hide Stripped, DataLines, Pieces;
    if payloads == [] {
      assert done + StrippedPayloads(payloads) == done;
    } else {
      FeedAppend(Parser(done, []), DataLines(Pieces(payloads[0])) + [""], Encode(payloads[1..]));
      FeedPayload(done, payloads[0]);
      FeedEncoded(done + [Stripped(payloads[0])], payloads[1..]);
      assert done + [Stripped(payloads[0])] + StrippedPayloads(payloads[1..]) == done + StrippedPayloads(payloads);
    }
  }

  lemma {:induction false} StripAllLength(pieces: seq<string>)
    ensures |Join("\n", StripAll(pieces))| <= |Join("\n", pieces)|
    ensures |Join("\n", StripAll(pieces))| == |Join("\n", pieces)| <==> NoLeadingSpace(pieces)
    ensures NoLeadingSpace(pieces) ==> StripAll(pieces) == pieces
    ensures |StripAll(pieces)| == |pieces|
  {
    if pieces != [] {
      StripAllLength(pieces[1..]);
      assert StripAll(pieces)[1..] == StripAll(pieces[1..]);
      assert NoLeadingSpace(pieces) <==> !StartsWith(pieces[0], " ") && NoLeadingSpace(pieces[1..]) by {
        assert pieces == [pieces[0]] + pieces[1..];
      }
    }
  }

  lemma StrippedIsSame(payload: string)
    ensures Stripped(payload) == payload <==> NoLeadingSpace(Pieces(payload))
  {
    JoinSplit(payload, '\n');
    StripAllLength(Pieces(payload));
  }

  lemma {:induction false} AllStrippedSame(payloads: seq<string>)
    ensures StrippedPayloads(payloads) == payloads
            <==> forall i :: 0 <= i < |payloads| ==> NoLeadingSpace(Pieces(payloads[i]))
  {
    if payloads != [] {
      StrippedIsSame(payloads[0]);
      AllStrippedSame(payloads[1..]);
      assert payloads == [payloads[0]] + payloads[1..];
      assert StrippedPayloads(payloads)[0] == Stripped(payloads[0]);
      assert StrippedPayloads(payloads)[1..] == StrippedPayloads(payloads[1..]);
    }
  }

  /** Payloads encoded as data lines parse back to the same list exactly when no piece starts with a space. */
  lemma {:induction false} RoundTrip(payloads: seq<string>)
    ensures Payloads(Encode(payloads)) == payloads
            <==> forall i :: 0 <= i < |payloads| ==> NoLeadingSpace(Pieces(payloads[i]))
  {
    hide Encode, StrippedPayloads, FeedAll, NoLeadingSpace;
    FeedEncoded([], payloads);
    AllStrippedSame(payloads);
    assert [] + StrippedPayloads(payloads) == StrippedPayloads(payloads);
  }
}
