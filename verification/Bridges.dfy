/**
 `Network.list_bridges` and `get_bridge` of rrmngmnt/network.py: a line parser over the output
 of `brctl show`, in which `sed` has turned each further interface of a bridge into a
 continuation line "CONT:<interface>".
 */
module Bridges {
  import opened Wrappers
  import opened Text

  datatype Bridge = Bridge(name: string, id: string, stp: string, interfaces: seq<string>)

  /** Reading `bridges[-1]`, `line[0]`, `line[1]` or `line[2]` past the end. */
  datatype Error = IndexError

  const CONT := "CONT:"

  predicate IsContinuation(line: string) {
    CONT <= line
  }

  // ---------------------------------------------------------------- the parser

  /** What the loop reads off one line: a further interface, or a bridge's columns. */
  datatype Line = Further(interface: string) | Own(columns: seq<string>)

  function Read(line: string): Line {
    if IsContinuation(line) then Further(line[5..]) else Own(Words(line, IsSpace))
  }

  function ReadAll(lines: seq<string>): seq<Line> {
    if lines == [] then [] else [Read(lines[0])] + ReadAll(lines[1..])
  }

  /** One turn of the loop: the list so far and the next line give the next list. */
  function Take(bridges: seq<Bridge>, line: Line): Result<seq<Bridge>, Error> {
    match line
    case Further(interface) =>
      if bridges == [] then Err(IndexError)
      else
        var last := bridges[|bridges| - 1];
        Ok(bridges[|bridges| - 1 := last.(interfaces := last.interfaces + [interface])])
    case Own(columns) =>
      if |columns| < 3 then Err(IndexError)
      else Ok(bridges + [Bridge(columns[0], columns[1], columns[2], if |columns| == 4 then [columns[3]] else [])])
  }

  function TakeAll(bridges: seq<Bridge>, lines: seq<Line>): Result<seq<Bridge>, Error>
    decreases |lines|
  {
    if lines == [] then Ok(bridges)
    else match Take(bridges, lines[0])
      case Err(e) => Err(e)
      case Ok(next) => TakeAll(next, lines[1..])
  }

  function Parse(out: string): Result<seq<Bridge>, Error> {
    TakeAll([], ReadAll(SplitLines(Strip(out, IsSpace))))
  }

  method ListBridges(output: string) returns (r: Result<seq<Bridge>, Error>)
    ensures r == Parse(output)
  {
    var bridges: seq<Bridge> := [];
    var out := Strip(output, IsSpace);
    if out == "" {
      return Ok(bridges);
    }
    var lines := SplitLines(out);
    for i := 0 to |lines|
      invariant Parse(output) == TakeAll(bridges, ReadAll(lines[i..]))
    {
      var line := lines[i];
      assert lines[i..][0] == line && lines[i..][1..] == lines[i + 1..];
      if IsContinuation(line) {
        if bridges == [] {
          return Err(IndexError);
        }
        var bridge := bridges[|bridges| - 1];
        bridge := bridge.(interfaces := bridge.interfaces + [line[5..]]);
        bridges := bridges[|bridges| - 1 := bridge];
      } else {
        var words := Words(line, IsSpace);
        if |words| < 3 {
          return Err(IndexError);
        }
        var bridge := Bridge(words[0], words[1], words[2], []);
        if |words| == 4 {
          bridge := bridge.(interfaces := [words[3]]);
        }
        bridges := bridges + [bridge];
      }
    }
    return Ok(bridges);
  }

  // ---------------------------------------------------------------- single lines

  /** When the loop breaks: at a line with fewer than three words, or at an interface before any bridge. */
  lemma {:induction false} FailsIffIncomplete(bridges: seq<Bridge>, lines: seq<Line>)
    ensures TakeAll(bridges, lines).Err? <==>
            || (exists i :: 0 <= i < |lines| && lines[i].Own? && |lines[i].columns| < 3)
            || (bridges == [] && lines != [] && lines[0].Further?)
    decreases |lines|
  {
    if lines != [] && Take(bridges, lines[0]).Ok? {
      var rest := lines[1..];
      FailsIffIncomplete(Take(bridges, lines[0]).value, rest);
      assert forall i :: 0 < i < |lines| ==> lines[i] == rest[i - 1];
      if i :| 0 <= i < |rest| && rest[i].Own? && |rest[i].columns| < 3 {
        assert lines[i + 1] == rest[i];
      }
    }
  }

  /** One line of words by itself: three columns, an interface only if there is just a fourth word. */
  lemma OneLine(ws: seq<string>)
    requires ws != [] && AreWords(ws, IsSpace) && !IsContinuation(Join(ws, " "))
    ensures Parse(Join(ws, " ")) == if |ws| < 3 then Err(IndexError)
            else Ok([Bridge(ws[0], ws[1], ws[2], if |ws| == 4 then [ws[3]] else [])])
  {
    OneLineRead(ws);
    TakeOne(ws);
  }

  lemma OneLineRead(ws: seq<string>)
    requires ws != [] && AreWords(ws, IsSpace) && !IsContinuation(Join(ws, " "))
    ensures Parse(Join(ws, " ")) == TakeAll([], [Own(ws)])
  {
    var line := Join(ws, " ");
    WordsJoin(ws, ' ', IsSpace);
    JoinTrimmed(ws, " ", IsSpace);
    StripTrimmed(line, IsSpace);
    WordsHaveNoBreaks(ws);
    SplitJoinedLines([line]);
    ReadOne(line);
  }

  lemma TakeOne(ws: seq<string>)
    ensures TakeAll([], [Own(ws)]) == if |ws| < 3 then Err(IndexError)
            else Ok([Bridge(ws[0], ws[1], ws[2], if |ws| == 4 then [ws[3]] else [])])
  {
    var none: seq<Bridge> := [];
    assert TakeAll(none, [Own(ws)]) == match Take(none, Own(ws)) { case Err(e) => Err(e) case Ok(next) => Ok(next) }
    by { assert [Own(ws)][1..] == []; }
    if |ws| >= 3 {
      var b := Bridge(ws[0], ws[1], ws[2], if |ws| == 4 then [ws[3]] else []);
      assert none + [b] == [b];
    }
  }

  lemma {:induction false} WordsHaveNoBreaks(ws: seq<string>)
    requires AreWords(ws, IsSpace)
    ensures Free(Join(ws, " "), IsLineBreak)
    decreases |ws|
  {
    if ws != [] {
      BreaksAreSpaces(ws[0]);
      WordsHaveNoBreaks(ws[1..]);
    }
  }

  // ---------------------------------------------------------------- get_bridge

  /** `get_bridge`: the earliest bridge of that name. */
  function GetBridge(bridges: seq<Bridge>, name: string): (r: Option<Bridge>)
    ensures r.None? <==> forall b :: b in bridges ==> b.name != name
    ensures r.Some? ==> exists i :: 0 <= i < |bridges| && bridges[i] == r.value && r.value.name == name
                                    && forall j :: 0 <= j < i ==> bridges[j].name != name
  {
    var named := Named(bridges, name);
    if named != [] then Some(named[0]) else None
  }

  function Named(bridges: seq<Bridge>, name: string): (r: seq<Bridge>)
    ensures r == [] <==> forall b :: b in bridges ==> b.name != name
    ensures r != [] ==> exists i :: 0 <= i < |bridges| && bridges[i] == r[0] && r[0].name == name
                                    && forall j :: 0 <= j < i ==> bridges[j].name != name
  {
    if bridges == [] then []
    else
      var rest := Named(bridges[1..], name);
      assert forall j :: 0 <= j < |bridges| - 1 ==> bridges[j + 1] == bridges[1..][j];
      if bridges[0].name == name then
        assert bridges[0] == ([bridges[0]] + rest)[0];
        [bridges[0]] + rest
      else
        assert rest != [] ==> exists i :: 0 < i < |bridges| && bridges[i] == rest[0]
                                          && forall j :: 0 <= j < i ==> bridges[j].name != name by {
          if rest != [] {
            var i :| 0 <= i < |bridges| - 1 && bridges[1..][i] == rest[0]
                     && forall j :: 0 <= j < i ==> bridges[1..][j].name != name;
            assert bridges[i + 1] == rest[0];
            forall j | 0 <= j < i + 1 ensures bridges[j].name != name {
              if j > 0 { assert bridges[j] == bridges[1..][j - 1]; }
            }
          }
        }
        rest
  }

  // ---------------------------------------------------------------- the printed form

  /** The blanks brctl puts between, before and behind the columns of one bridge. */
  datatype Layout = Layout(afterName: string, afterId: string, afterStp: string, behind: string, indent: string)

  datatype Entry = Entry(bridge: Bridge, layout: Layout)

  predicate IsBlank(s: string) {
    Every(s, IsSpace) && Free(s, IsLineBreak)
  }

  predicate IsGap(s: string) {
    s != "" && IsBlank(s)
  }

  predicate Printable(e: Entry) {
    && IsWord(e.bridge.name, IsSpace) && IsWord(e.bridge.id, IsSpace) && IsWord(e.bridge.stp, IsSpace)
    && AreWords(e.bridge.interfaces, IsSpace)
    && IsGap(e.layout.afterName) && IsGap(e.layout.afterId) && IsGap(e.layout.afterStp)
    && IsGap(e.layout.indent) && IsBlank(e.layout.behind)
  }

  predicate AllPrintable(es: seq<Entry>) {
    es == [] || (Printable(es[0]) && AllPrintable(es[1..]))
  }

  /** No bridge is named like a continuation line. */
  predicate WellNamed(es: seq<Entry>) {
    es == [] || (!IsContinuation(es[0].bridge.name) && WellNamed(es[1..]))
  }

  /** The bridge's own line. */
  function OwnLine(b: Bridge, l: Layout): string {
    Column(b.name, l.afterName, Column(b.id, l.afterId,
      if b.interfaces == [] then b.stp + l.behind
      else Column(b.stp, l.afterStp, b.interfaces[0] + l.behind)))
  }

  function BrctlLines(e: Entry): seq<string> {
    [OwnLine(e.bridge, e.layout)] + Indented(e.layout.indent, FurtherInterfaces(e.bridge))
  }

  function FurtherInterfaces(b: Bridge): seq<string> {
    if b.interfaces == [] then [] else b.interfaces[1..]
  }

  function Indented(indent: string, interfaces: seq<string>): seq<string> {
    if interfaces == [] then [] else [indent + interfaces[0]] + Indented(indent, interfaces[1..])
  }

  /** `sed 's/^\s\s*\(\S\S*\)$/CONT:\1/'` on one line. */
  function SedLine(line: string): string {
    var t := LStrip(line, IsSpace);
    if t != "" && |t| < |line| && Free(t, IsSpace) then CONT + t else line
  }

  function Sed(lines: seq<string>): seq<string> {
    if lines == [] then [] else [SedLine(lines[0])] + Sed(lines[1..])
  }

  function Printed(es: seq<Entry>): seq<string> {
    if es == [] then [] else Sed(BrctlLines(es[0])) + Printed(es[1..])
  }

  function BridgesOf(es: seq<Entry>): (r: seq<Bridge>)
    ensures |r| == |es|
  {
    if es == [] then [] else [es[0].bridge] + BridgesOf(es[1..])
  }

  // ---------------------------------------------------------------- round trip

  /**
   Over every bridge list and every layout of the columns, parsing what was printed returns the
   same list exactly when no bridge is named like a continuation line.
   */
  lemma ParsingInvertsPrinting(es: seq<Entry>)
    requires AllPrintable(es)
    ensures Parse(Unlines(Printed(es))) == Ok(BridgesOf(es)) <==> WellNamed(es)
  {
    if es == [] {
      assert Unlines(Printed(es)) == "" && Strip("", IsSpace) == "";
    } else {
      var trim := TrimLast(es);
      TrimLastSpec(es);
      StrippedOutput(es);
      if WellNamed(es) {
        ReadPrinted(trim);
        TakesBridges([], BridgesOf(trim));
        assert [] + BridgesOf(trim) == BridgesOf(es);
      } else {
        OwnLinesPrinted(trim);
        OwnLinesTaken([], ReadAll(Printed(trim)));
      }
    }
  }

  /** The same list, without the blanks that `strip` takes from the end of the output. */
  function TrimLast(es: seq<Entry>): (r: seq<Entry>)
    requires es != []
    ensures |r| == |es|
  {
    if |es| > 1 then [es[0]] + TrimLast(es[1..])
    else if FurtherInterfaces(es[0].bridge) == [] then [es[0].(layout := es[0].layout.(behind := ""))]
    else es
  }

  lemma {:induction false} TrimLastSpec(es: seq<Entry>)
    requires es != []
    ensures BridgesOf(TrimLast(es)) == BridgesOf(es)
    ensures AllPrintable(es) ==> AllPrintable(TrimLast(es))
    ensures WellNamed(TrimLast(es)) <==> WellNamed(es)
    decreases |es|
  {
    var r := TrimLast(es);
    if |es| > 1 {
      TrimLastSpec(es[1..]);
      assert r[1..] == TrimLast(es[1..]);
    } else {
      assert r[1..] == es[1..] == [];
    }
  }

  function Tail(es: seq<Entry>): string
    requires es != []
  {
    var e := es[|es| - 1];
    if FurtherInterfaces(e.bridge) == [] then e.layout.behind else ""
  }

  function Continued(interfaces: seq<string>): seq<string> {
    if interfaces == [] then [] else [CONT + interfaces[0]] + Continued(interfaces[1..])
  }

  lemma {:induction false} SedOfIndented(indent: string, interfaces: seq<string>)
    requires IsGap(indent) && AreWords(interfaces, IsSpace)
    ensures Sed(Indented(indent, interfaces)) == Continued(interfaces)
    decreases |interfaces|
  {
    if interfaces != [] {
      LStripPadded(indent, interfaces[0], IsSpace);
      SedOfIndented(indent, interfaces[1..]);
    }
  }

  /** sed rewrites the further interfaces and leaves the bridge's own line alone. */
  lemma SedOfEntry(e: Entry)
    requires Printable(e)
    ensures Sed(BrctlLines(e)) == [OwnLine(e.bridge, e.layout)] + Continued(FurtherInterfaces(e.bridge))
  {
    var own := OwnLine(e.bridge, e.layout);
    OwnLineFront(e);
    LStripPadded("", own, IsSpace);
    assert "" + own == own;
    SedOfIndented(e.layout.indent, FurtherInterfaces(e.bridge));
    assert BrctlLines(e)[1..] == Indented(e.layout.indent, FurtherInterfaces(e.bridge));
  }

  lemma OwnLineFront(e: Entry)
    requires Printable(e)
    ensures e.bridge.name + [e.layout.afterName[0]] <= OwnLine(e.bridge, e.layout)
  {
  }

  /** The blanks behind the own line can be split off, and what is left ends in a word. */
  lemma OwnLineBack(e: Entry)
    requires Printable(e)
    ensures var core := OwnLine(e.bridge, e.layout.(behind := ""));
            OwnLine(e.bridge, e.layout) == core + e.layout.behind && core != "" && Trimmed(core, IsSpace)
  {
    var b, l := e.bridge, e.layout;
    var last := if b.interfaces == [] then b.stp else b.interfaces[0];
    assert last + "" == last;
    var inner := if b.interfaces == [] then last else Column(b.stp, l.afterStp, last);
    if b.interfaces != [] {
      ColumnAppend(b.stp, l.afterStp, last, l.behind);
    }
    ColumnAppend(b.id, l.afterId, inner, l.behind);
    ColumnAppend(b.name, l.afterName, Column(b.id, l.afterId, inner), l.behind);
    assert inner[|inner| - 1] == last[|last| - 1];
    LastOfColumn(b.id, l.afterId, inner);
    LastOfColumn(b.name, l.afterName, Column(b.id, l.afterId, inner));
  }

  lemma LastOfColumn(w: string, gap: string, rest: string)
    requires rest != ""
    ensures var c := Column(w, gap, rest); c[|c| - 1] == rest[|rest| - 1]
  {
  }

  lemma BreaksAreSpaces(s: string)
    requires Free(s, IsSpace)
    ensures Free(s, IsLineBreak)
  {
  }

  lemma ColumnIsLine(w: string, gap: string, rest: string)
    requires Free(w, IsSpace) && Free(gap, IsLineBreak) && Free(rest, IsLineBreak)
    ensures Free(Column(w, gap, rest), IsLineBreak)
  {
    BreaksAreSpaces(w);
  }

  lemma OwnLineIsLine(e: Entry)
    requires Printable(e)
    ensures Free(OwnLine(e.bridge, e.layout), IsLineBreak)
  {
    var b, l := e.bridge, e.layout;
    BreaksAreSpaces(b.stp);
    if b.interfaces == [] {
      ColumnIsLine(b.id, l.afterId, b.stp + l.behind);
      ColumnIsLine(b.name, l.afterName, Column(b.id, l.afterId, b.stp + l.behind));
    } else {
      BreaksAreSpaces(b.interfaces[0]);
      var inner := Column(b.stp, l.afterStp, b.interfaces[0] + l.behind);
      ColumnIsLine(b.stp, l.afterStp, b.interfaces[0] + l.behind);
      ColumnIsLine(b.id, l.afterId, inner);
      ColumnIsLine(b.name, l.afterName, Column(b.id, l.afterId, inner));
    }
  }

  lemma {:induction false} ContinuedLines(interfaces: seq<string>)
    requires AreWords(interfaces, IsSpace)
    ensures AreLines(Continued(interfaces)) && |Continued(interfaces)| == |interfaces|
    ensures forall i :: 0 <= i < |interfaces| ==> Continued(interfaces)[i] == CONT + interfaces[i]
    decreases |interfaces|
  {
    if interfaces != [] {
      BreaksAreSpaces(interfaces[0]);
      ContinuedLines(interfaces[1..]);
    }
  }

  /** What `strip` and `splitlines` make of the printed text. */
  lemma StrippedOutput(es: seq<Entry>)
    requires es != [] && AllPrintable(es)
    ensures SplitLines(Strip(Unlines(Printed(es)), IsSpace)) == Printed(TrimLast(es))
  {
    TrimLastSpec(es);
    PrintedTail(es);
    PrintedShape(TrimLast(es));
    StrippedLines(Printed(TrimLast(es)), Tail(es));
  }

  /** One entry's lines: all break-free, the first one not indented, the last one not padded once trimmed. */
  lemma EntryShape(e: Entry, lines: seq<string>)
    requires Printable(e) && lines == Sed(BrctlLines(e))
    ensures GoodLines(lines)
    ensures Tail([e]) == "" ==> EndsTrimmed(lines)
  {
    var further := FurtherInterfaces(e.bridge);
    SedOfEntry(e);
    OwnLineFront(e);
    OwnLineIsLine(e);
    ContinuedLines(further);
    if further != [] {
      assert lines[|lines| - 1] == CONT + further[|further| - 1];
    } else {
      OwnLineBack(e);
      assert Tail([e]) == e.layout.behind;
    }
  }

  /** Break-free lines, the first one not indented. */
  predicate GoodLines(lines: seq<string>) {
    lines != [] && AreLines(lines) && lines[0] != "" && !IsSpace(lines[0][0])
  }

  predicate EndsTrimmed(lines: seq<string>) {
    lines != [] && lines[|lines| - 1] != "" && Trimmed(lines[|lines| - 1], IsSpace)
  }

  lemma LinesBefore(first: seq<string>, rest: seq<string>)
    requires GoodLines(first) && AreLines(rest)
    ensures GoodLines(first + rest)
    ensures EndsTrimmed(rest) ==> EndsTrimmed(first + rest)
  {
    var all := first + rest;
    assert all[0] == first[0];
    if EndsTrimmed(rest) {
      assert all[|all| - 1] == rest[|rest| - 1];
    }
  }

  lemma {:induction false} PrintedShape(es: seq<Entry>)
    requires es != [] && AllPrintable(es)
    requires Tail(es) == ""
    ensures GoodLines(Printed(es)) && EndsTrimmed(Printed(es))
    decreases |es|
  {
    var lines := Sed(BrctlLines(es[0]));
    EntryShape(es[0], lines);
    if |es| > 1 {
      PrintedShape(es[1..]);
      LinesBefore(lines, Printed(es[1..]));
    } else {
      assert es == [es[0]];
      assert Printed(es) == lines + Printed([]) == lines;
    }
  }

  lemma {:induction false} PrintedTail(es: seq<Entry>)
    requires es != [] && AllPrintable(es)
    ensures Tail(TrimLast(es)) == "" && Every(Tail(es), IsSpace)
    ensures Printed(TrimLast(es)) != []
    ensures Printed(es) == AppendToLast(Printed(TrimLast(es)), Tail(es))
    decreases |es|
  {
    var lines, trim := Sed(BrctlLines(es[0])), TrimLast(es);
    if |es| > 1 {
      PrintedTail(es[1..]);
      assert trim[1..] == TrimLast(es[1..]);
      AppendToLater(lines, Printed(trim[1..]), Tail(es));
    } else {
      assert Printed(es) == lines + Printed([]) == lines;
      assert Printed(trim) == Sed(BrctlLines(trim[0])) + Printed([]) == Sed(BrctlLines(trim[0]));
      EntryTail(es[0], trim[0]);
    }
  }

  lemma AppendToLater(first: seq<string>, rest: seq<string>, tail: string)
    requires rest != []
    ensures first + AppendToLast(rest, tail) == AppendToLast(first + rest, tail)
  {
  }

  lemma EntryTail(e: Entry, trim: Entry)
    requires Printable(e) && [trim] == TrimLast([e])
    ensures Sed(BrctlLines(trim)) != []
    ensures Sed(BrctlLines(e)) == AppendToLast(Sed(BrctlLines(trim)), Tail([e]))
  {
    var lines := Sed(BrctlLines(trim));
    assert trim in TrimLast([e]);
    SedOfEntry(e);
    SedOfEntry(trim);
    if FurtherInterfaces(e.bridge) == [] {
      OwnLineBack(e);
    } else {
      assert lines[|lines| - 1] + "" == lines[|lines| - 1];
    }
  }

  // ---------------------------------------------------------------- well-named bridges parse

  /** How one bridge reads: its own columns, then one further interface a line. */
  function Lines(b: Bridge): seq<Line> {
    [Own([b.name, b.id, b.stp] + (if b.interfaces == [] then [] else [b.interfaces[0]]))]
    + Furthers(FurtherInterfaces(b))
  }

  function Furthers(interfaces: seq<string>): seq<Line> {
    if interfaces == [] then [] else [Further(interfaces[0])] + Furthers(interfaces[1..])
  }

  function AllLines(bs: seq<Bridge>): seq<Line> {
    if bs == [] then [] else Lines(bs[0]) + AllLines(bs[1..])
  }

  lemma {:induction false} ReadAppend(a: seq<string>, b: seq<string>)
    ensures ReadAll(a + b) == ReadAll(a) + ReadAll(b)
    decreases |a|
  {
    if a == [] {
      assert a + b == b;
    } else {
      assert (a + b)[1..] == a[1..] + b;
      ReadAppend(a[1..], b);
    }
  }

  lemma {:induction false} ReadPrinted(es: seq<Entry>)
    requires AllPrintable(es) && WellNamed(es)
    ensures ReadAll(Printed(es)) == AllLines(BridgesOf(es))
    decreases |es|
  {
    if es != [] {
      ReadEntry(es[0]);
      ReadAppend(Sed(BrctlLines(es[0])), Printed(es[1..]));
      ReadPrinted(es[1..]);
      assert BridgesOf(es)[1..] == BridgesOf(es[1..]);
    }
  }

  lemma ReadEntry(e: Entry)
    requires Printable(e) && !IsContinuation(e.bridge.name)
    ensures ReadAll(Sed(BrctlLines(e))) == Lines(e.bridge)
  {
    var own := OwnLine(e.bridge, e.layout);
    SedOfEntry(e);
    OwnWords(e);
    NotContinuation(e);
    ReadContinued(FurtherInterfaces(e.bridge));
    ReadAppend([own], Continued(FurtherInterfaces(e.bridge)));
    ReadOne(own);
  }

  lemma ReadOne(line: string)
    ensures ReadAll([line]) == [Read(line)]
  {
    assert [line][1..] == [];
  }

  lemma {:induction false} ReadContinued(interfaces: seq<string>)
    ensures ReadAll(Continued(interfaces)) == Furthers(interfaces)
    decreases |interfaces|
  {
    if interfaces != [] {
      assert (CONT + interfaces[0])[5..] == interfaces[0];
      ReadContinued(interfaces[1..]);
    }
  }

  /** The bridge's own line splits into its three or four columns. */
  lemma OwnWords(e: Entry)
    requires Printable(e)
    ensures Words(OwnLine(e.bridge, e.layout), IsSpace) ==
            [e.bridge.name, e.bridge.id, e.bridge.stp] +
            (if e.bridge.interfaces == [] then [] else [e.bridge.interfaces[0]])
  {
    var b, l := e.bridge, e.layout;
    if b.interfaces == [] {
      WordsLast(b.stp, l.behind);
      WordsThree(b.name, l.afterName, b.id, l.afterId, b.stp + l.behind);
    } else {
      WordsLast(b.interfaces[0], l.behind);
      WordsColumn(b.stp, l.afterStp, b.interfaces[0] + l.behind, IsSpace);
      WordsThree(b.name, l.afterName, b.id, l.afterId, Column(b.stp, l.afterStp, b.interfaces[0] + l.behind));
    }
  }

  lemma WordsLast(w: string, behind: string)
    requires IsWord(w, IsSpace) && Every(behind, IsSpace)
    ensures Words(w + behind, IsSpace) == [w]
  {
    WordsSpec(behind, IsSpace);
    WordsCons(w, behind, IsSpace);
  }

  lemma WordsThree(v: string, gap: string, w: string, gap': string, rest: string)
    requires IsWord(v, IsSpace) && IsGap(gap) && IsWord(w, IsSpace) && IsGap(gap')
    ensures Words(Column(v, gap, Column(w, gap', rest)), IsSpace) == [v, w] + Words(rest, IsSpace)
  {
    WordsColumn(v, gap, Column(w, gap', rest), IsSpace);
    WordsColumn(w, gap', rest, IsSpace);
  }

  /** A bridge's own line reads as a continuation exactly when the bridge's name does. */
  lemma NotContinuation(e: Entry)
    requires Printable(e)
    ensures IsContinuation(OwnLine(e.bridge, e.layout)) <==> IsContinuation(e.bridge.name)
  {
    OwnLineFront(e);
    var own, name, gap := OwnLine(e.bridge, e.layout), e.bridge.name, e.layout.afterName[0];
    assert own[..|name|] == name && own[|name|] == gap;
    assert Free(CONT, IsSpace);
    if IsContinuation(own) {
      assert forall i :: 0 <= i < 5 ==> CONT[i] == own[i];
      assert name[..5] == own[..5];
    }
  }

  // The loop rebuilds the bridges from their lines.

  lemma {:induction false} TakeAppend(bridges: seq<Bridge>, a: seq<Line>, b: seq<Line>)
    ensures TakeAll(bridges, a + b) ==
            match TakeAll(bridges, a) { case Err(e) => Err(e) case Ok(next) => TakeAll(next, b) }
    decreases |a|
  {
    if a == [] {
      assert a + b == b;
    } else {
      assert (a + b)[1..] == a[1..] + b;
      match Take(bridges, a[0])
      case Err(_) =>
      case Ok(next) => TakeAppend(next, a[1..], b);
    }
  }

  lemma {:induction false} TakesBridges(bridges: seq<Bridge>, bs: seq<Bridge>)
    ensures TakeAll(bridges, AllLines(bs)) == Ok(bridges + bs)
    decreases |bs|
  {
    if bs == [] {
      assert bridges + bs == bridges;
    } else {
      TakesBridge(bridges, bs[0]);
      TakeAppend(bridges, Lines(bs[0]), AllLines(bs[1..]));
      TakesBridges(bridges + [bs[0]], bs[1..]);
      assert bridges + [bs[0]] + bs[1..] == bridges + bs;
    }
  }

  lemma TakesBridge(bridges: seq<Bridge>, b: Bridge)
    ensures TakeAll(bridges, Lines(b)) == Ok(bridges + [b])
  {
    var first := b.(interfaces := if b.interfaces == [] then [] else [b.interfaces[0]]);
    assert Take(bridges, Lines(b)[0]) == Ok(bridges + [first]);
    assert Lines(b)[1..] == Furthers(FurtherInterfaces(b));
    TakesFurthers(bridges, first, FurtherInterfaces(b));
    assert first.interfaces + FurtherInterfaces(b) == b.interfaces;
  }

  lemma {:induction false} TakesFurthers(bridges: seq<Bridge>, b: Bridge, interfaces: seq<string>)
    ensures TakeAll(bridges + [b], Furthers(interfaces)) == Ok(bridges + [b.(interfaces := b.interfaces + interfaces)])
    decreases |interfaces|
  {
    if interfaces == [] {
      assert b.interfaces + [] == b.interfaces;
    } else {
      var next := b.(interfaces := b.interfaces + [interfaces[0]]);
      assert (bridges + [b])[|bridges + [b]| - 1 := next] == bridges + [next];
      TakesFurthers(bridges, next, interfaces[1..]);
      assert next.interfaces + interfaces[1..] == b.interfaces + interfaces;
    }
  }

  // ---------------------------------------------------------------- ill-named bridges get lost

  /** The number of lines that start a bridge. */
  function OwnLines(lines: seq<Line>): nat {
    if lines == [] then 0 else (if lines[0].Own? then 1 else 0) + OwnLines(lines[1..])
  }

  lemma {:induction false} OwnLinesTaken(bridges: seq<Bridge>, lines: seq<Line>)
    ensures var r := TakeAll(bridges, lines); r.Ok? ==> |r.value| == |bridges| + OwnLines(lines)
    decreases |lines|
  {
    if lines != [] {
      match Take(bridges, lines[0])
      case Err(_) =>
      case Ok(next) => OwnLinesTaken(next, lines[1..]);
    }
  }

  lemma {:induction false} OwnLinesAppend(a: seq<Line>, b: seq<Line>)
    ensures OwnLines(a + b) == OwnLines(a) + OwnLines(b)
    decreases |a|
  {
    if a == [] {
      assert a + b == b;
    } else {
      assert (a + b)[1..] == a[1..] + b;
      OwnLinesAppend(a[1..], b);
    }
  }

  lemma {:induction false} OwnLinesPrinted(es: seq<Entry>)
    requires AllPrintable(es)
    ensures OwnLines(ReadAll(Printed(es))) <= |es|
    ensures !WellNamed(es) ==> OwnLines(ReadAll(Printed(es))) < |es|
    decreases |es|
  {
    if es != [] {
      var lines := Sed(BrctlLines(es[0]));
      OwnLinesOfEntry(es[0]);
      ReadAppend(lines, Printed(es[1..]));
      OwnLinesAppend(ReadAll(lines), ReadAll(Printed(es[1..])));
      OwnLinesPrinted(es[1..]);
    }
  }

  lemma OwnLinesOfEntry(e: Entry)
    requires Printable(e)
    ensures OwnLines(ReadAll(Sed(BrctlLines(e)))) == if IsContinuation(e.bridge.name) then 0 else 1
  {
    var own, further := OwnLine(e.bridge, e.layout), FurtherInterfaces(e.bridge);
    SedOfEntry(e);
    NotContinuation(e);
    ReadContinued(further);
    ReadAppend([own], Continued(further));
    ReadOne(own);
    OwnLinesAppend([Read(own)], Furthers(further));
    FurthersOwnNothing(further);
  }

  lemma {:induction false} FurthersOwnNothing(interfaces: seq<string>)
    ensures OwnLines(Furthers(interfaces)) == 0
    decreases |interfaces|
  {
    if interfaces != [] {
      FurthersOwnNothing(interfaces[1..]);
    }
  }
}
