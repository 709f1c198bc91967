/**
 `OperatingSystem.get_release_info` and the cached `release_info` property of
 rrmngmnt/operatingsystem.py: key/value lines of /etc/os-release become a dictionary.
 */
module ReleaseInfo {
  import opened Wrappers
  import opened Text

  type Info = map<string, string>

  /** What `values[1].strip(" \"'")` removes. */
  predicate IsQuoteOrBlank(c: char) {
    c == ' ' || c == '"' || c == '\''
  }

  // ---------------------------------------------------------------- the parser

  function ParseLine(info: Info, line: string): Info {
    match Find(line, "=")
    case None => info
    case Some(k) => info[Strip(line[..k], IsSpace) := Strip(line[k + 1..], IsQuoteOrBlank)]
  }

  function ParseLines(info: Info, lines: seq<string>): Info
    decreases |lines|
  {
    if lines == [] then info else ParseLines(ParseLine(info, lines[0]), lines[1..])
  }

  function Parse(out: string): Info {
    ParseLines(map[], SplitLines(Strip(out, IsSpace)))
  }

  /** `line.split("=", 1)` */
  function SplitOnce(line: string): (values: seq<string>)
    ensures |values| == if Find(line, "=").Some? then 2 else 1
  {
    match Find(line, "=")
    case None => [line]
    case Some(k) => [line[..k], line[k + 1..]]
  }

  method GetReleaseInfo(out: string) returns (info: Info)
    ensures info == Parse(out)
  {
    info := map[];
    var lines := SplitLines(Strip(out, IsSpace));
    for i := 0 to |lines|
      invariant Parse(out) == ParseLines(info, lines[i..])
    {
      assert lines[i..][0] == lines[i] && lines[i..][1..] == lines[i + 1..];
      var values := SplitOnce(lines[i]);
      if |values| != 2 {
        continue;
      }
      info := info[Strip(values[0], IsSpace) := Strip(values[1], IsQuoteOrBlank)];
    }
  }

  // ---------------------------------------------------------------- the printed form

  /** An assignment `key=open value close`, or a line the parser is to skip. */
  datatype Entry =
    | Assign(key: string, value: string, open: string, close: string)
    | Other(text: string)

  predicate Printable(e: Entry) {
    match e
    case Assign(key, value, open, close) =>
      && Trimmed(key, IsSpace) && '=' !in key && Free(key, IsLineBreak)
      && Trimmed(value, IsQuoteOrBlank) && Free(value, IsLineBreak)
      && Every(open, IsQuote) && Every(close, IsQuote)
    case Other(text) => '=' !in text && Free(text, IsLineBreak)
  }

  predicate IsQuote(c: char) {
    c == '"' || c == '\''
  }

  predicate AllPrintable(es: seq<Entry>) {
    es == [] || (Printable(es[0]) && AllPrintable(es[1..]))
  }

  function Line(e: Entry): string {
    match e
    case Assign(key, value, open, close) => key + ("=" + (open + value + close))
    case Other(text) => text
  }

  function Lines(es: seq<Entry>): seq<string> {
    if es == [] then [] else [Line(es[0])] + Lines(es[1..])
  }

  /** The dictionary the assignments denote: a later one replaces an earlier one. */
  function Denotes(info: Info, es: seq<Entry>): Info
    decreases |es|
  {
    if es == [] then info
    else Denotes(if es[0].Assign? then info[es[0].key := es[0].value] else info, es[1..])
  }

  // ---------------------------------------------------------------- round trip

  /**
   The last line that is not blank, if it is an assignment, ends in a quote, in '=', or in something
   that is not blank space.
   */
  predicate EndsWell(es: seq<Entry>) {
    es == [] ||
    match es[|es| - 1]
    case Other(text) => !Every(text, IsSpace) || EndsWell(es[..|es| - 1])
    case Assign(_, value, _, close) => close != "" || value == "" || !IsSpace(value[|value| - 1])
  }

  /**
   Whatever blank space surrounds a printed file, whatever quotes surround its values, and wherever
   lines without '=' stand, parsing gives the dictionary the assignments denote, exactly when `strip`
   does not cut into the last value.
   */
  lemma {:induction false} ParsingInvertsPrinting(es: seq<Entry>, before: string, after: string)
    requires AllPrintable(es) && Every(before, IsSpace) && Every(after, IsSpace)
    ensures Parse(before + Join(Lines(es), "\n") + after) == Denotes(map[], es) <==> EndsWell(es)
    decreases |es|
  {
    if es == [] {
      BlankOutput(before + "" + after);
    } else {
      var front, e := es[..|es| - 1], es[|es| - 1];
      assert es == front + [e];
      FrontPrintable(es);
      LinesSnoc(front, e);
      DenotesSnoc(map[], front, e);
      if Every(Line(e), IsSpace) {
        BlankLine(front, e, before, after);
        if front != [] {
          ParsingInvertsPrinting(front, before, "\n" + Line(e) + after);
        }
      } else {
        EndsInLine(front, e, before, after);
        LastLine(Denotes(map[], front), e);
      }
    }
  }

  lemma EqualsInLine(e: Entry)
    ensures e.Assign? ==> '=' in Line(e)
  {
    if e.Assign? {
      assert Line(e)[|e.key|] == '=';
    }
  }

  /** A blank last line belongs to the blank space behind the others. */
  lemma BlankLine(front: seq<Entry>, e: Entry, before: string, after: string)
    requires Every(Line(e), IsSpace) && Every(before, IsSpace) && Every(after, IsSpace)
    ensures e.Other?
    ensures var out, tail := before + Join(Lines(front) + [Line(e)], "\n") + after, "\n" + Line(e) + after;
            Every(tail, IsSpace) &&
            if front == [] then Parse(out) == map[] else out == before + Join(Lines(front), "\n") + tail
  {
    var out, tail := before + Join(Lines(front) + [Line(e)], "\n") + after, "\n" + Line(e) + after;
    EqualsInLine(e);
    assert Every(tail, IsSpace);
    if front == [] {
      assert Lines(front) + [Line(e)] == [Line(e)] && Join([Line(e)], "\n") == Line(e);
      BlankOutput(out);
    } else {
      JoinSnoc(Lines(front), Line(e), "\n");
      assert before + (Join(Lines(front), "\n") + "\n" + Line(e)) + after == before + Join(Lines(front), "\n") + tail;
    }
  }

  lemma {:induction false} FrontPrintable(es: seq<Entry>)
    requires es != [] && AllPrintable(es)
    ensures AllPrintable(es[..|es| - 1]) && Printable(es[|es| - 1])
    decreases |es|
  {
    if |es| > 1 {
      FrontPrintable(es[1..]);
      assert es[..|es| - 1][1..] == es[1..][..|es| - 2];
    }
  }

  lemma {:induction false} LinesSnoc(es: seq<Entry>, e: Entry)
    ensures Lines(es + [e]) == Lines(es) + [Line(e)]
    decreases |es|
  {
    if es == [] {
      assert es + [e] == [e] && Lines([e]) == [Line(e)];
    } else {
      assert (es + [e])[1..] == es[1..] + [e];
      LinesSnoc(es[1..], e);
    }
  }

  lemma {:induction false} DenotesSnoc(info: Info, es: seq<Entry>, e: Entry)
    ensures Denotes(info, es + [e]) == if e.Assign? then Denotes(info, es)[e.key := e.value] else Denotes(info, es)
    decreases |es|
  {
    if es == [] {
      assert es + [e] == [e] && Denotes(if e.Assign? then info[e.key := e.value] else info, []) == Denotes(info, [e]);
    } else {
      assert (es + [e])[1..] == es[1..] + [e];
      DenotesSnoc(if es[0].Assign? then info[es[0].key := es[0].value] else info, es[1..], e);
    }
  }

  lemma {:induction false} ParseSnoc(info: Info, lines: seq<string>, line: string)
    ensures ParseLines(info, lines + [line]) == ParseLine(ParseLines(info, lines), line)
    decreases |lines|
  {
    if lines == [] {
      assert lines + [line] == [line] && ParseLines(ParseLine(info, line), []) == ParseLines(info, [line]);
    } else {
      assert (lines + [line])[1..] == lines[1..] + [line];
      ParseSnoc(ParseLine(info, lines[0]), lines[1..], line);
    }
  }

  lemma BlankOutput(out: string)
    requires Every(out, IsSpace)
    ensures Parse(out) == map[]
  {
    assert out == out + "" + "";
    StripPadded(out, "", "", IsSpace);
  }

  // What `strip` does at the front does not show in the dictionary.

  lemma BlankInKey(info: Info, c: char, line: string)
    requires IsSpace(c)
    ensures ParseLine(info, [c] + line) == ParseLine(info, line)
  {
    var longer := [c] + line;
    assert longer[1..] == line && longer[..1] == [c] != "=";
    match Find(line, "=")
    case None =>
    case Some(k) =>
      assert longer[..k + 1] == [c] + line[..k] && longer[k + 2..] == line[k + 1..];
      assert ([c] + line[..k])[1..] == line[..k];
  }

  lemma BreakFirst(c: char, t: string)
    requires IsLineBreak(c)
    ensures SplitLines([c] + t) == [""] + SplitLines(t) || SplitLines([c] + t) == SplitLines(t)
  {
    var s := [c] + t;
    assert s[0..] == s && s[..0] == "" && s[1..] == t;
    if BreakLength(s) == 2 {
      assert t[0..] == t && t[..0] == "" && BreakLength(t) == 1;
      assert s[2..] == t[1..];
      assert SplitLines(t) == [""] + SplitLines(t[1..]);
    }
  }

  lemma CharFirst(c: char, t: string)
    requires !IsLineBreak(c)
    ensures t == "" ==> SplitLines([c] + t) == [[c]]
    ensures t != "" ==> SplitLines(t) != [] && SplitLines([c] + t) == [[c] + SplitLines(t)[0]] + SplitLines(t)[1..]
  {
    var s, m := [c] + t, RunLength(t, IsLineBreak);
    assert s[1..] == t && RunLength(s, IsLineBreak) == m + 1;
    assert s[..m + 1] == [c] + t[..m];
    if t != "" && m < |t| {
      assert s[m + 1..] == t[m..];
      assert s[m + 1 + BreakLength(t[m..])..] == t[m + BreakLength(t[m..])..];
    } else {
      assert t[..m] == t;
    }
  }

  lemma BlankBefore(info: Info, c: char, t: string)
    requires IsSpace(c)
    ensures ParseLines(info, SplitLines([c] + t)) == ParseLines(info, SplitLines(t))
  {
    if IsLineBreak(c) {
      BreakFirst(c, t);
      assert ParseLine(info, "") == info;
      assert ([""] + SplitLines(t))[1..] == SplitLines(t);
    } else {
      CharFirst(c, t);
      if t == "" {
        BlankInKey(info, c, "");
        assert [c] + "" == [c] && [[c]][1..] == [];
      } else {
        BlankInKey(info, c, SplitLines(t)[0]);
      }
    }
  }

  lemma {:induction false} BlanksBefore(info: Info, before: string, t: string)
    requires Every(before, IsSpace)
    ensures ParseLines(info, SplitLines(before + t)) == ParseLines(info, SplitLines(t))
    decreases |before|
  {
    if before == "" {
      assert before + t == t;
    } else {
      assert before + t == [before[0]] + (before[1..] + t);
      BlankBefore(info, before[0], before[1..] + t);
      BlanksBefore(info, before[1..], t);
    }
  }

  /** Parsing stripped output is parsing output stripped at its end. */
  lemma ParseIsRightStripped(out: string)
    ensures Parse(out) == ParseLines(map[], SplitLines(RStrip(out, IsSpace)))
  {
    var lead, core, trail := StripInTurn(out);
    StripPadded(lead, core, trail, IsSpace);
    BlanksBefore(map[], lead, core);
  }

  lemma StripInTurn(out: string) returns (lead: string, core: string, trail: string)
    ensures Every(lead, IsSpace) && Every(trail, IsSpace) && Trimmed(core, IsSpace)
    ensures RStrip(out, IsSpace) == lead + core && out == lead + core + trail
  {
    var r := RStrip(out, IsSpace);
    RStripSpec(out, IsSpace);
    LStripSpec(r, IsSpace);
    core := LStrip(r, IsSpace);
    lead, trail := r[..|r| - |core|], out[|r|..];
    assert core != "" ==> core[|core| - 1] == r[|r| - 1];
    assert r == lead + core;
  }

  /** At the end `strip` takes the blanks off the last line that is not blank. */
  lemma CutsLastLine(lines: seq<string>, line: string, before: string, after: string)
    requires !Every(line, IsSpace) && Every(after, IsSpace)
    ensures RStrip(line, IsSpace) != ""
    ensures RStrip(before + Join(lines + [line], "\n") + after, IsSpace)
         == before + Join(lines + [RStrip(line, IsSpace)], "\n")
  {
    var core := RStrip(line, IsSpace);
    RStripSpec(line, IsSpace);
    var tail, text := line[|core|..], Join(lines + [core], "\n");
    assert line == core + tail && core != "";
    assert AppendToLast(lines + [core], tail) == lines + [line];
    JoinLonger(lines + [core], tail, "\n");
    LastOfJoin(lines, core);
    Regroup(before, text, tail, after);
    RStripPadded(before + text, tail + after, IsSpace);
  }

  lemma LastOfJoin(lines: seq<string>, core: string)
    requires core != ""
    ensures var text := Join(lines + [core], "\n"); text != "" && text[|text| - 1] == core[|core| - 1]
  {
    JoinEnds(lines + [core], "\n");
    var text := Join(lines + [core], "\n");
    assert text[|text| - |core|..][|core| - 1] == text[|text| - 1];
  }

  lemma Regroup(a: string, b: string, c: string, d: string)
    ensures a + (b + c) + d == (a + b) + (c + d)
  {
  }

  lemma EndsInLine(front: seq<Entry>, e: Entry, before: string, after: string)
    requires AllPrintable(front) && Printable(e) && !Every(Line(e), IsSpace)
    requires Every(before, IsSpace) && Every(after, IsSpace)
    ensures Parse(before + Join(Lines(front) + [Line(e)], "\n") + after)
         == ParseLine(Denotes(map[], front), RStrip(Line(e), IsSpace))
  {
    var core, lines := RStrip(Line(e), IsSpace), Lines(front);
    CutsLastLine(lines, Line(e), before, after);
    ParseIsRightStripped(before + Join(lines + [Line(e)], "\n") + after);
    BlanksBefore(map[], before, Join(lines + [core], "\n"));
    CoreIsLine(front, e);
    SplitJoinedLines(lines + [core]);
    ParseSnoc(map[], lines, core);
    ParsesPrinted(map[], front);
  }

  lemma CoreIsLine(front: seq<Entry>, e: Entry)
    requires AllPrintable(front) && Printable(e)
    ensures AreLines(Lines(front) + [RStrip(Line(e), IsSpace)])
  {
    PrintedLines(front);
    LineIsLine(e);
    RStripSpec(Line(e), IsSpace);
  }

  /** What is left of the last line means the same exactly when its value is whole. */
  lemma LastLine(info: Info, e: Entry)
    requires Printable(e) && !Every(Line(e), IsSpace)
    ensures ParseLine(info, RStrip(Line(e), IsSpace)) == (if e.Assign? then info[e.key := e.value] else info)
       <==> EndsWell([e])
  {
    var line, core := Line(e), RStrip(Line(e), IsSpace);
    RStripSpec(line, IsSpace);
    assert [e][|[e]| - 1] == e;
    match e
    case Other(text) =>
      ParsesLine(info, Other(core));
    case Assign(key, value, open, close) =>
      if EndsWell([e]) {
        AssignEnds(e);
        ParsesLine(info, e);
        assert core == line;
      } else {
        CutValue(info, e, core);
      }
  }

  lemma CutValue(info: Info, e: Entry, core: string)
    requires Printable(e) && e.Assign? && e.close == "" && e.value != ""
    requires core < Line(e) && Every(Line(e)[|core|..], IsSpace)
    ensures ParseLine(info, core) != info[e.key := e.value]
  {
    var line, key, m := Line(e), e.key, |core| - |e.key| - 1;
    assert line[|key|] == '=';
    forall i | |core| <= i < |line| ensures IsSpace(line[i]) { assert line[i] == line[|core|..][i - |core|]; }
    var quoted := e.open + e.value;
    assert e.open + e.value + e.close == quoted && line[|key| + 1..] == quoted;
    assert core == key + ("=" + quoted[..m]);
    FindKey(key, quoted[..m]);
    assert core[..|key|] == key && core[|key| + 1..] == quoted[..m];
    StripTrimmed(key, IsSpace);
    if m <= |e.open| {
      assert quoted[..m] == e.open[..m] + "";
      StripShorter(e.open[..m], "");
    } else {
      assert quoted[..m] == e.open + e.value[..m - |e.open|];
      StripShorter(e.open, e.value[..m - |e.open|]);
    }
    assert ParseLine(info, core)[key] != e.value;
  }

  lemma {:induction false} StripShorter(quotes: string, rest: string)
    requires Every(quotes, IsQuote)
    ensures |Strip(quotes + rest, IsQuoteOrBlank)| <= |rest|
    decreases |quotes|
  {
    if quotes == "" {
      assert quotes + rest == rest;
    } else {
      assert (quotes + rest)[1..] == quotes[1..] + rest;
      StripShorter(quotes[1..], rest);
    }
  }

  /** An assignment with a whole value does not end in blank space. */
  lemma AssignEnds(e: Entry)
    requires Printable(e) && e.Assign? && EndsWell([e])
    ensures var l := Line(e); l != "" && !IsSpace(l[|l| - 1])
  {
    var l := Line(e);
    assert [e][|[e]| - 1] == e;
    if e.close != "" {
      assert l[|l| - 1] == e.close[|e.close| - 1];
    } else if e.value != "" {
      assert l[|l| - 1] == e.value[|e.value| - 1];
    } else if e.open != "" {
      assert l[|l| - 1] == e.open[|e.open| - 1];
    } else {
      assert l[|l| - 1] == '=';
    }
  }

  lemma LineIsLine(e: Entry)
    requires Printable(e)
    ensures Free(Line(e), IsLineBreak)
  {
    if e.Assign? {
      var quoted := e.open + e.value + e.close;
      assert Free(quoted, IsLineBreak);
    }
  }

  lemma {:induction false} PrintedLines(es: seq<Entry>)
    requires AllPrintable(es)
    ensures AreLines(Lines(es)) && |Lines(es)| == |es|
    ensures forall i :: 0 <= i < |es| ==> Lines(es)[i] == Line(es[i])
    decreases |es|
  {
    if es != [] {
      LineIsLine(es[0]);
      PrintedLines(es[1..]);
    }
  }

  lemma {:induction false} ParsesPrinted(info: Info, es: seq<Entry>)
    requires AllPrintable(es)
    ensures ParseLines(info, Lines(es)) == Denotes(info, es)
    decreases |es|
  {
    if es != [] {
      ParsesLine(info, es[0]);
      assert Lines(es)[1..] == Lines(es[1..]);
      ParsesPrinted(ParseLine(info, Line(es[0])), es[1..]);
    }
  }

  lemma ParsesLine(info: Info, e: Entry)
    requires Printable(e)
    ensures ParseLine(info, Line(e)) == if e.Assign? then info[e.key := e.value] else info
  {
    match e
    case Other(text) =>
      FindSpec(text, "=");
      ContainsChar(text, '=');
      assert forall i :: OccursAt(text, "=", i) ==> 0 <= i <= |text|;
    case Assign(key, value, open, close) =>
      var line, quoted := Line(e), open + value + close;
      FindKey(key, quoted);
      assert line[..|key|] == key && line[|key| + 1..] == quoted;
      StripTrimmed(key, IsSpace);
      StripPadded(open, value, close, IsQuoteOrBlank);
  }

  lemma FindKey(key: string, rest: string)
    requires '=' !in key
    ensures Find(key + ("=" + rest), "=") == Some(|key|)
  {
    var line := key + ("=" + rest);
    forall j | 0 <= j < |key| ensures !OccursAt(line, "=", j) {
      assert line[j..j + 1] == [key[j]];
    }
    assert line[|key|..|key| + 1] == "=";
    FindIs(line, "=", |key|);
  }

  /** One line gives its key and value back exactly when neither would be trimmed and the key holds no '='. */
  lemma LineIsExact(key: string, value: string)
    ensures ParseLine(map[], key + ("=" + value)) == map[key := value]
       <==> '=' !in key && Trimmed(key, IsSpace) && Trimmed(value, IsQuoteOrBlank)
  {
    var line := key + ("=" + value);
    StripTrimmed(key, IsSpace);
    StripTrimmed(value, IsQuoteOrBlank);
    if '=' !in key {
      FindKey(key, value);
      assert line[..|key|] == key && line[|key| + 1..] == value;
      assert Strip(key, IsSpace) in ParseLine(map[], line);
    } else {
      FindInKey(key, "=" + value);
      var k := Find(line, "=").value;
      assert |Strip(line[..k], IsSpace)| < |key|;
      assert Strip(line[..k], IsSpace) in ParseLine(map[], line) && key in map[key := value];
    }
  }

  lemma {:induction false} FindInKey(key: string, rest: string)
    requires '=' in key
    ensures Find(key + rest, "=").Some? && Find(key + rest, "=").value < |key|
    decreases |key|
  {
    assert (key + rest)[..1] == [key[0]];
    if key[0] != '=' {
      assert (key + rest)[1..] == key[1..] + rest;
      FindInKey(key[1..], rest);
    }
  }

  const BLANK_AND_QUOTES := " \"'"

  lemma BlankAndQuotes(c: char)
    ensures IsQuoteOrBlank(c) <==> c in BLANK_AND_QUOTES
  {
    assert BLANK_AND_QUOTES[0] == ' ' && BLANK_AND_QUOTES[1] == '"' && BLANK_AND_QUOTES[2] == '\'';
  }

  predicate BlanksAndQuotes(s: string) {
    forall i :: 0 <= i < |s| ==> s[i] in BLANK_AND_QUOTES
  }

  /** Blanks and quotes around a value, in any mixture, do not count, and no blank space around a key. */
  lemma PaddingDoesNotCount(info: Info, before: string, key: string, after: string,
                            open: string, value: string, close: string)
    requires Every(before, IsSpace) && Every(after, IsSpace) && BlanksAndQuotes(open) && BlanksAndQuotes(close)
    requires '=' !in key && Trimmed(key, IsSpace)
    requires value != "" ==> value[0] !in BLANK_AND_QUOTES && value[|value| - 1] !in BLANK_AND_QUOTES
    ensures ParseLine(info, before + key + after + ("=" + (open + value + close))) == info[key := value]
  {
    var front, quoted := before + key + after, open + value + close;
    FindKey(front, quoted);
    var line := front + ("=" + quoted);
    assert line[..|front|] == front && line[|front| + 1..] == quoted;
    StripPadded(before, key, after, IsSpace);
    forall c ensures IsQuoteOrBlank(c) <==> c in BLANK_AND_QUOTES { BlankAndQuotes(c); }
    StripPadded(open, value, close, IsQuoteOrBlank);
  }

  /** The last assignment to a key decides it. */
  lemma {:induction false} LastAssignmentWins(info: Info, es: seq<Entry>, key: string, i: int)
    requires IsLastAssignment(es, key, i)
    ensures key in Denotes(info, es) && Denotes(info, es)[key] == es[i].value
    decreases |es|
  {
    var next, rest := if es[0].Assign? then info[es[0].key := es[0].value] else info, es[1..];
    if i == 0 {
      UnassignedKeysStay(next, rest, key);
    } else {
      LastAssignmentWins(next, rest, key, i - 1);
    }
  }

  /** A key assigned nowhere keeps what it had. */
  lemma {:induction false} UnassignedKeysStay(info: Info, es: seq<Entry>, key: string)
    requires forall i :: 0 <= i < |es| ==> !Assigns(es[i], key)
    ensures key in Denotes(info, es) <==> key in info
    ensures key in info ==> Denotes(info, es)[key] == info[key]
    decreases |es|
  {
    if es != [] {
      assert !Assigns(es[0], key);
      UnassignedKeysStay(if es[0].Assign? then info[es[0].key := es[0].value] else info, es[1..], key);
    }
  }

  predicate Assigns(e: Entry, key: string) {
    e.Assign? && e.key == key
  }

  predicate IsLastAssignment(es: seq<Entry>, key: string, i: int) {
    && 0 <= i < |es| && Assigns(es[i], key)
    && forall j :: i < j < |es| ==> !Assigns(es[j], key)
  }

  // ---------------------------------------------------------------- the cached property

  /** A Python dictionary: shared by reference, changed in place. */
  class Dict {
    var items: Info

    constructor (items: Info)
      ensures this.items == items
    {
      this.items := items;
    }
  }

  /** The part of `OperatingSystem` behind `release_info`; an empty dictionary counts as not cached. */
  class OperatingSystem {
    var cache: Dict?

    constructor ()
      ensures cache == null
    {
      cache := null;
    }

    ghost predicate Cached()
      reads this, cache
    {
      cache != null && cache.items != map[]
    }

    /** What a read returns when the file now reads `out`. */
    ghost function Answer(out: string): Info
      reads this, cache
    {
      if cache != null && cache.items != map[] then cache.items else Parse(out)
    }

    /** Hands out a copy: never the cached object itself, never an object anybody held before. */
    method ReleaseInfo(out: string) returns (copy: Dict)
      modifies this
      ensures fresh(copy) && copy != cache && copy.items == old(Answer(out))
      ensures cache != null && cache.items == copy.items
      ensures old(Cached()) ==> cache == old(cache)
      ensures cache == old(cache) || fresh(cache)
    {
      if cache == null || cache.items == map[] {
        var info := GetReleaseInfo(out);
        cache := new Dict(info);
      }
      copy := new Dict(cache.items);
    }
  }

  /**
   A caller that scribbles over the dictionary it was given does not change what later reads return,
   whatever the file reads by then; only an empty answer is looked up again.
   */
  method ScribblingIsHarmless(os: OperatingSystem, out: string, scribble: Info, later: string)
    returns (first: Info, second: Info)
    modifies os
    ensures first == old(os.Answer(out))
    ensures old(os.cache) == null ==> first == Parse(out)
    ensures second == if first != map[] then first else Parse(later)
  {
    var d := os.ReleaseInfo(out);
    first := d.items;
    d.items := scribble;
    var e := os.ReleaseInfo(later);
    second := e.items;
  }
}
