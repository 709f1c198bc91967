/**
 The Python string operations the parsers and printers rest on: `strip`, `split` with and
 without a separator, `splitlines`, `join`, and decimal `str(int)`.
 Character classes are passed as predicates, so that `strip()` and `strip(" \"'")`, or
 `str.split()` and the tokeniser of `shlex`, are the same function at different arguments.
 */
module Text {
  import opened Wrappers

  // ---------------------------------------------------------------- character classes

  /** The characters at which `str.splitlines` ends a line ("\r\n" counts as one end). */
  predicate IsLineBreak(c: char) {
    var n := c as int;
    10 <= n <= 13 || 28 <= n <= 30 || n == 133 || n == 8232 || n == 8233
  }

  /** The characters `str.strip()` and `str.split()` take for whitespace. */
  predicate IsSpace(c: char) {
    var n := c as int;
    9 <= n <= 13 || 28 <= n <= 32 || n == 133 || n == 160 || n == 5760 ||
    8192 <= n <= 8202 || n == 8232 || n == 8233 || n == 8239 || n == 8287 || n == 12288
  }

  /** The two classes, character by character. */
  const LINE_BREAKS := "\n\r\U{000B}\U{000C}\U{001C}\U{001D}\U{001E}\U{0085}\U{2028}\U{2029}"

  const OTHER_BLANKS := " \t\U{001F}\U{00A0}\U{1680}\U{202F}\U{205F}\U{3000}"

  const TYPOGRAPHIC_BLANKS :=
    "\U{2000}\U{2001}\U{2002}\U{2003}\U{2004}\U{2005}\U{2006}\U{2007}\U{2008}\U{2009}\U{200A}"

  lemma CharacterClasses(c: char)
    ensures IsLineBreak(c) <==> c in LINE_BREAKS
    ensures IsSpace(c) <==> c in LINE_BREAKS || c in OTHER_BLANKS || c in TYPOGRAPHIC_BLANKS
  {
    var n := c as int;
    assert 0x2000 <= n <= 0x200A ==> TYPOGRAPHIC_BLANKS[n - 0x2000] == c;
    assert n == 10 ==> LINE_BREAKS[0] == c;
    assert n == 13 ==> LINE_BREAKS[1] == c;
    assert 11 <= n <= 12 ==> LINE_BREAKS[n - 9] == c;
    assert 28 <= n <= 30 ==> LINE_BREAKS[n - 24] == c;
    assert n == 0x85 ==> LINE_BREAKS[7] == c;
    assert 0x2028 <= n <= 0x2029 ==> LINE_BREAKS[n - 0x2020] == c;
    assert n == 32 ==> OTHER_BLANKS[0] == c;
    assert n == 9 ==> OTHER_BLANKS[1] == c;
    assert n == 31 ==> OTHER_BLANKS[2] == c;
    assert n == 0xA0 ==> OTHER_BLANKS[3] == c;
    assert n == 0x1680 ==> OTHER_BLANKS[4] == c;
    assert n == 0x202F ==> OTHER_BLANKS[5] == c;
    assert n == 0x205F ==> OTHER_BLANKS[6] == c;
    assert n == 0x3000 ==> OTHER_BLANKS[7] == c;
  }

  predicate Every(s: string, p: char -> bool) {
    forall i :: 0 <= i < |s| ==> p(s[i])
  }

  predicate Free(s: string, p: char -> bool) {
    forall i :: 0 <= i < |s| ==> !p(s[i])
  }

  // ---------------------------------------------------------------- strip

  function LStrip(s: string, p: char -> bool): (r: string)
    ensures |r| <= |s|
  {
    if s != "" && p(s[0]) then LStrip(s[1..], p) else s
  }

  function RStrip(s: string, p: char -> bool): (r: string)
    ensures |r| <= |s|
  {
    if s != "" && p(s[|s| - 1]) then RStrip(s[..|s| - 1], p) else s
  }

  function Strip(s: string, p: char -> bool): (r: string)
    ensures |r| <= |s|
  {
    RStrip(LStrip(s, p), p)
  }

  lemma {:induction false} LStripSpec(s: string, p: char -> bool)
    ensures var r := LStrip(s, p);
            (r == "" || !p(r[0])) && r == s[|s| - |r|..] && Every(s[..|s| - |r|], p)
  {
    if s != "" && p(s[0]) {
      LStripSpec(s[1..], p);
      var r := LStrip(s, p);
      assert s[..|s| - |r|] == [s[0]] + s[1..][..|s| - 1 - |r|];
    }
  }

  lemma {:induction false} RStripSpec(s: string, p: char -> bool)
    ensures var r := RStrip(s, p);
            (r == "" || !p(r[|r| - 1])) && r == s[..|r|] && Every(s[|r|..], p)
  {
    if s != "" && p(s[|s| - 1]) {
      RStripSpec(s[..|s| - 1], p);
      var r := RStrip(s, p);
      assert s[|r|..] == s[..|s| - 1][|r|..] + [s[|s| - 1]];
    }
  }

  /** What is left is a middle part of `s` with no padding of its own. */
  lemma StripSpec(s: string, p: char -> bool) returns (before: string, after: string)
    ensures s == before + Strip(s, p) + after && Every(before, p) && Every(after, p)
    ensures Trimmed(Strip(s, p), p)
    ensures Strip(s, p) == "" <==> Every(s, p)
  {
    var t, r := LStrip(s, p), Strip(s, p);
    LStripSpec(s, p);
    RStripSpec(t, p);
    before, after := s[..|s| - |t|], t[|r|..];
    assert r != "" ==> r[0] == t[0] == s[|before|];
    assert s == before + r + after;
    assert r == "" ==> t == "" && before == s;
  }

  /** Stripping would leave `s` alone. */
  predicate Trimmed(s: string, p: char -> bool) {
    s != "" ==> !p(s[0]) && !p(s[|s| - 1])
  }

  /** `strip` removes exactly the padding: whatever surrounds a trimmed core goes. */
  lemma {:induction false} StripPadded(before: string, core: string, after: string, p: char -> bool)
    requires Every(before, p) && Every(after, p) && Trimmed(core, p)
    ensures Strip(before + core + after, p) == core
  {
    var s := before + core + after;
    if core == "" {
      var _, _ := StripSpec(s, p);
      assert Every(s, p);
    } else {
      LStripPadded(before, core + after, p);
      assert s == before + (core + after);
      RStripPadded(core, after, p);
    }
  }

  lemma {:induction false} LStripPadded(before: string, rest: string, p: char -> bool)
    requires Every(before, p) && (rest != "" ==> !p(rest[0]))
    ensures LStrip(before + rest, p) == rest
  {
    if before == "" {
      assert before + rest == rest;
    } else {
      assert (before + rest)[1..] == before[1..] + rest;
      LStripPadded(before[1..], rest, p);
    }
  }

  lemma {:induction false} RStripPadded(front: string, after: string, p: char -> bool)
    requires Every(after, p) && (front != "" ==> !p(front[|front| - 1]))
    ensures RStrip(front + after, p) == front
  {
    if after == "" {
      assert front + after == front;
    } else {
      var n := |after| - 1;
      assert (front + after)[..|front| + n] == front + after[..n];
      RStripPadded(front, after[..n], p);
    }
  }

  /** `strip` of a trimmed text is that text; a strictly shorter result means it was not trimmed. */
  lemma StripTrimmed(s: string, p: char -> bool)
    ensures Trimmed(s, p) <==> Strip(s, p) == s
    ensures |Strip(s, p)| == |s| ==> Strip(s, p) == s
  {
    if Trimmed(s, p) {
      assert s == "" + s + "";
      StripPadded("", s, "", p);
    }
    var before, after := StripSpec(s, p);
    assert |Strip(s, p)| == |s| ==> before == "" && after == "";
  }

  // ---------------------------------------------------------------- join and split(sep)

  function Join(parts: seq<string>, sep: string): string {
    if |parts| == 0 then ""
    else if |parts| == 1 then parts[0]
    else parts[0] + sep + Join(parts[1..], sep)
  }

  lemma JoinCons(first: string, rest: seq<string>, sep: string)
    requires rest != []
    ensures Join([first] + rest, sep) == first + sep + Join(rest, sep)
  {
    assert ([first] + rest)[1..] == rest;
  }

  lemma {:induction false} JoinSnoc(ws: seq<string>, w: string, sep: string)
    requires ws != []
    ensures Join(ws + [w], sep) == Join(ws, sep) + sep + w
    decreases |ws|
  {
    if |ws| == 1 {
      assert (ws + [w])[1..] == [w];
    } else {
      assert (ws + [w])[1..] == ws[1..] + [w];
      JoinSnoc(ws[1..], w, sep);
    }
  }

  predicate OccursAt(s: string, sep: string, i: int) {
    0 <= i && i + |sep| <= |s| && s[i..i + |sep|] == sep
  }

  predicate Contains(s: string, sub: string) {
    exists i :: 0 <= i <= |s| && OccursAt(s, sub, i)
  }

  lemma SliceShift(s: string, i: int, j: int)
    requires 0 < i <= j <= |s|
    ensures s[i..j] == s[1..][i - 1..j - 1]
  {
    var a, b := s[i..j], s[1..][i - 1..j - 1];
    assert |a| == |b| && forall k :: 0 <= k < |a| ==> a[k] == b[k];
    assert a == b;
  }

  lemma OccursShift(s: string, sep: string)
    requires s != ""
    ensures forall j :: 0 < j ==> (OccursAt(s, sep, j) <==> OccursAt(s[1..], sep, j - 1))
  {
    forall j | 0 < j ensures OccursAt(s, sep, j) <==> OccursAt(s[1..], sep, j - 1) {
      if j + |sep| <= |s| {
        SliceShift(s, j, j + |sep|);
      }
    }
  }

  /** `str.find`: the leftmost occurrence. */
  function Find(s: string, sep: string): (r: Option<nat>)
    requires sep != ""
    ensures r.Some? ==> r.value + |sep| <= |s|
  {
    if |s| < |sep| then None
    else if s[..|sep|] == sep then Some(0)
    else match Find(s[1..], sep)
      case None => None
      case Some(k) => Some(k + 1)
  }

  lemma {:induction false} FindSpec(s: string, sep: string)
    requires sep != ""
    ensures var r := Find(s, sep);
            if r.Some? then OccursAt(s, sep, r.value) && forall j :: 0 <= j < r.value ==> !OccursAt(s, sep, j)
            else forall j :: !OccursAt(s, sep, j)
  {
    if |s| >= |sep| && s[..|sep|] != sep {
      FindSpec(s[1..], sep);
      OccursShift(s, sep);
      assert !OccursAt(s, sep, 0);
    }
  }

  /** The leftmost occurrence is the only one with none before it. */
  lemma FindIs(s: string, sep: string, k: nat)
    requires sep != "" && OccursAt(s, sep, k) && forall j :: 0 <= j < k ==> !OccursAt(s, sep, j)
    ensures Find(s, sep) == Some(k)
  {
    FindSpec(s, sep);
  }

  /** `str.split(sep)`: cut at leftmost, non-overlapping occurrences. */
  function Split(s: string, sep: string): (r: seq<string>)
    requires sep != ""
    ensures |r| >= 1
    decreases |s|
  {
    match Find(s, sep)
    case None => [s]
    case Some(k) => [s[..k]] + Split(s[k + |sep|..], sep)
  }

  /** The pieces join back to the text, and none of them holds the separator. */
  lemma {:induction false} SplitSpec(s: string, sep: string)
    requires sep != ""
    ensures Join(Split(s, sep), sep) == s
    ensures forall i :: 0 <= i < |Split(s, sep)| ==> !Contains(Split(s, sep)[i], sep)
    decreases |s|
  {
    FindSpec(s, sep);
    var r := Find(s, sep);
    if r.Some? {
      var k := r.value;
      var rest := Split(s[k + |sep|..], sep);
      SplitSpec(s[k + |sep|..], sep);
      assert s == s[..k] + sep + s[k + |sep|..];
      assert ([s[..k]] + rest)[1..] == rest;
      forall i | 0 <= i && i + |sep| <= k ensures !OccursAt(s[..k], sep, i) {
        OccursInFront(s, k, sep, i);
        assert !OccursAt(s, sep, i);
      }
    }
  }

  lemma OccursInFront(s: string, k: nat, sep: string, i: nat)
    requires i + |sep| <= k <= |s|
    ensures OccursAt(s[..k], sep, i) <==> OccursAt(s, sep, i)
  {
    assert s[..k][i..i + |sep|] == s[i..i + |sep|];
  }

  /** The separator is first met where the printer put it, also when it overlaps the part before it. */
  predicate SplitSafe(parts: seq<string>, sep: string) {
    forall i :: 0 <= i < |parts| ==>
      if i < |parts| - 1
      then forall j :: 0 <= j < |parts[i]| ==> !OccursAt(parts[i] + sep, sep, j)
      else !Contains(parts[i], sep)
  }

  /** `split` undoes `join` for exactly the lists of parts that never let the separator start early. */
  lemma {:induction false} SplitJoin(parts: seq<string>, sep: string)
    requires |parts| >= 1 && sep != ""
    ensures Split(Join(parts, sep), sep) == parts <==> SplitSafe(parts, sep)
    decreases |parts|
  {
    if |parts| == 1 {
      SplitOne(parts[0], sep);
      assert parts == [parts[0]];
    } else {
      SplitJoin(parts[1..], sep);
      SplitSafeTail(parts, sep);
      SplitFirst(parts[0], sep, Join(parts[1..], sep));
      assert parts == [parts[0]] + parts[1..];
      assert Join(parts, sep) == parts[0] + sep + Join(parts[1..], sep);
    }
  }

  lemma SplitOne(part: string, sep: string)
    requires sep != ""
    ensures Split(part, sep) == [part] <==> !Contains(part, sep)
  {
    FindSpec(part, sep);
    if Find(part, sep).Some? {
      SplitSpec(part, sep);
      assert OccursAt(part, sep, Find(part, sep).value);
    }
  }

  /**
   One step of `split` on a joined text: the first part comes back whole exactly when the separator is
   not met early.
   */
  lemma SplitFirst(first: string, sep: string, rest: string)
    requires sep != ""
    ensures (forall j :: 0 <= j < |first| ==> !OccursAt(first + sep, sep, j)) ==>
            Split(first + sep + rest, sep) == [first] + Split(rest, sep)
    ensures !(forall j :: 0 <= j < |first| ==> !OccursAt(first + sep, sep, j)) ==>
            Split(first + sep + rest, sep)[0] != first
  {
    var s := first + sep + rest;
    FindFirst(first, sep, rest);
    FindSpec(first + sep, sep);
    var k := Find(s, sep).value;
    if k == |first| {
      assert s[..k] == first && s[k + |sep|..] == rest;
    }
  }

  lemma SplitSafeTail(parts: seq<string>, sep: string)
    requires |parts| >= 2 && sep != ""
    ensures SplitSafe(parts, sep) <==>
            (forall j :: 0 <= j < |parts[0]| ==> !OccursAt(parts[0] + sep, sep, j)) && SplitSafe(parts[1..], sep)
  {
    var tail := parts[1..];
    if SplitSafe(tail, sep) {
      forall i | 1 <= i < |parts|
        ensures if i < |parts| - 1
                then forall j :: 0 <= j < |parts[i]| ==> !OccursAt(parts[i] + sep, sep, j)
                else !Contains(parts[i], sep)
      {
        assert tail[i - 1] == parts[i];
      }
    }
    if SplitSafe(parts, sep) {
      forall i | 0 <= i < |tail|
        ensures if i < |tail| - 1
                then forall j :: 0 <= j < |tail[i]| ==> !OccursAt(tail[i] + sep, sep, j)
                else !Contains(tail[i], sep)
      {
        assert tail[i] == parts[i + 1];
      }
    }
  }

  /** In `first + sep + rest` the leftmost separator is the leftmost one of `first + sep`. */
  lemma FindFirst(first: string, sep: string, rest: string)
    requires sep != ""
    ensures Find(first + sep + rest, sep).Some?
    ensures Find(first + sep + rest, sep) == Find(first + sep, sep)
    ensures Find(first + sep, sep).value <= |first|
  {
    var s := first + sep + rest;
    assert OccursAt(s, sep, |first|) && OccursAt(first + sep, sep, |first|);
    forall j | 0 <= j <= |first| ensures OccursAt(s, sep, j) <==> OccursAt(first + sep, sep, j) {
      assert s[j..j + |sep|] == (first + sep)[j..j + |sep|];
    }
    FindSpec(s, sep);
    FindSpec(first + sep, sep);
  }

  /** For a one-character separator the condition is that no part holds it. */
  lemma SplitSafeChar(parts: seq<string>, c: char)
    ensures SplitSafe(parts, [c]) <==> forall i :: 0 <= i < |parts| ==> c !in parts[i]
  {
    forall i | 0 <= i < |parts|
      ensures (forall j :: 0 <= j < |parts[i]| ==> !OccursAt(parts[i] + [c], [c], j)) <==> c !in parts[i]
      ensures Contains(parts[i], [c]) <==> c in parts[i]
    {
      ContainsChar(parts[i], c);
      forall j | 0 <= j < |parts[i]| ensures OccursAt(parts[i] + [c], [c], j) <==> parts[i][j] == c {
        assert (parts[i] + [c])[j..j + 1] == [parts[i][j]];
      }
    }
  }

  lemma ContainsChar(s: string, c: char)
    ensures Contains(s, [c]) <==> c in s
  {
    forall j | 0 <= j < |s| ensures OccursAt(s, [c], j) <==> s[j] == c {
      assert s[j..j + 1] == [s[j]];
    }
  }

  // ---------------------------------------------------------------- split()

  /** The length of the longest prefix that holds no character of the class. */
  function RunLength(s: string, p: char -> bool): (n: nat)
    ensures n <= |s| && (s != "" && !p(s[0]) ==> n > 0)
  {
    if s == "" || p(s[0]) then 0 else 1 + RunLength(s[1..], p)
  }

  lemma {:induction false} RunLengthSpec(s: string, p: char -> bool)
    ensures var n := RunLength(s, p); Free(s[..n], p) && (n < |s| ==> p(s[n]))
  {
    if s != "" && !p(s[0]) {
      RunLengthSpec(s[1..], p);
      var n := RunLength(s[1..], p);
      assert s[..n + 1] == [s[0]] + s[1..][..n];
    }
  }

  predicate IsWord(w: string, p: char -> bool) {
    w != "" && Free(w, p)
  }

  predicate AreWords(ws: seq<string>, p: char -> bool) {
    forall i :: 0 <= i < |ws| ==> IsWord(ws[i], p)
  }

  /** `str.split()`: the maximal runs between characters of the class. */
  function Words(s: string, p: char -> bool): (r: seq<string>)
    decreases |s|
  {
    var t := LStrip(s, p);
    var n := RunLength(t, p);
    if n == 0 then [] else [t[..n]] + Words(t[n..], p)
  }

  lemma {:induction false} WordsSpec(s: string, p: char -> bool)
    ensures AreWords(Words(s, p), p)
    ensures Words(s, p) == [] <==> Every(s, p)
    decreases |s|
  {
    var t := LStrip(s, p);
    var n := RunLength(t, p);
    LStripSpec(s, p);
    RunLengthSpec(t, p);
    if n > 0 {
      WordsSpec(t[n..], p);
      assert s[|s| - |t|] == t[0];
    } else {
      assert t == "" && s[..|s|] == s;
    }
  }

  lemma WordsGap(gap: string, s: string, p: char -> bool)
    requires Every(gap, p)
    ensures Words(gap + s, p) == Words(s, p)
  {
    var t := LStrip(s, p);
    LStripSpec(s, p);
    var before := gap + s[..|s| - |t|];
    assert gap + s == before + t;
    LStripPadded(before, t, p);
  }

  lemma WordsCons(w: string, rest: string, p: char -> bool)
    requires IsWord(w, p) && (rest != "" ==> p(rest[0]))
    ensures Words(w + rest, p) == [w] + Words(rest, p)
  {
    var s := w + rest;
    assert LStrip(s, p) == s;
    RunLengthWord(w, rest, p);
    assert s[..|w|] == w && s[|w|..] == rest;
  }

  /** A word, a gap and the rest of a line. */
  function Column(w: string, gap: string, rest: string): string {
    w + (gap + rest)
  }

  lemma WordsColumn(w: string, gap: string, rest: string, p: char -> bool)
    requires IsWord(w, p) && Every(gap, p) && gap != ""
    ensures Words(Column(w, gap, rest), p) == [w] + Words(rest, p)
  {
    WordsCons(w, gap + rest, p);
    WordsGap(gap, rest, p);
  }

  lemma ColumnAppend(w: string, gap: string, rest: string, tail: string)
    ensures Column(w, gap, rest + tail) == Column(w, gap, rest) + tail
  {
    assert w + (gap + (rest + tail)) == (w + (gap + rest)) + tail;
  }

  /** A run goes through a word and on into what follows. */
  lemma {:induction false} RunLengthThrough(w: string, rest: string, p: char -> bool)
    requires Free(w, p)
    ensures RunLength(w + rest, p) == |w| + RunLength(rest, p)
  {
    if w == "" {
      assert w + rest == rest;
    } else {
      assert (w + rest)[1..] == w[1..] + rest;
      RunLengthThrough(w[1..], rest, p);
    }
  }

  lemma RunLengthWord(w: string, rest: string, p: char -> bool)
    requires Free(w, p) && (rest != "" ==> p(rest[0]))
    ensures RunLength(w + rest, p) == |w|
  {
    RunLengthThrough(w, rest, p);
  }

  /** Words joined by one blank tokenise back to themselves exactly when each is a word. */
  lemma WordsJoin(ws: seq<string>, blank: char, p: char -> bool)
    requires p(blank)
    ensures Words(Join(ws, [blank]), p) == ws <==> AreWords(ws, p)
  {
    WordsSpec(Join(ws, [blank]), p);
    if AreWords(ws, p) {
      WordsOfJoined(ws, blank, p);
    }
  }

  lemma {:induction false} WordsOfJoined(ws: seq<string>, blank: char, p: char -> bool)
    requires p(blank) && AreWords(ws, p)
    ensures Words(Join(ws, [blank]), p) == ws
    decreases |ws|
  {
    if |ws| == 1 {
      WordsCons(ws[0], "", p);
      assert ws[0] + "" == ws[0];
    } else if |ws| > 1 {
      var rest := Join(ws[1..], [blank]);
      calc {
        Words(Join(ws, [blank]), p);
        Words(ws[0] + [blank] + rest, p);
        { WordsStep(ws[0], blank, rest, p); }
        [ws[0]] + Words(rest, p);
        { WordsOfJoined(ws[1..], blank, p); }
        [ws[0]] + ws[1..];
        ws;
      }
    }
  }

  lemma WordsStep(w: string, blank: char, rest: string, p: char -> bool)
    requires IsWord(w, p) && p(blank)
    ensures Words(w + [blank] + rest, p) == [w] + Words(rest, p)
  {
    assert w + [blank] + rest == w + ([blank] + rest);
    WordsCons(w, [blank] + rest, p);
    WordsGap([blank], rest, p);
  }

  // ---------------------------------------------------------------- splitlines

  /** How many characters the line end at the front of `s` takes. */
  function BreakLength(s: string): (n: nat)
    requires s != ""
    ensures 1 <= n <= |s|
  {
    if |s| >= 2 && s[0] == '\r' && s[1] == '\n' then 2 else 1
  }

  function SplitLines(s: string): (r: seq<string>)
    decreases |s|
  {
    if s == "" then []
    else
      var n := RunLength(s, IsLineBreak);
      if n == |s| then [s] else [s[..n]] + SplitLines(s[n + BreakLength(s[n..])..])
  }

  lemma {:induction false} SplitLinesSpec(s: string)
    ensures AreLines(SplitLines(s))
    decreases |s|
  {
    if s != "" {
      var n := RunLength(s, IsLineBreak);
      RunLengthSpec(s, IsLineBreak);
      if n == |s| {
        assert s[..n] == s;
      } else {
        SplitLinesSpec(s[n + BreakLength(s[n..])..]);
      }
    }
  }

  predicate AreLines(ls: seq<string>) {
    forall i :: 0 <= i < |ls| ==> Free(ls[i], IsLineBreak)
  }

  /** Each line followed by a newline. */
  function Unlines(ls: seq<string>): string {
    if ls == [] then "" else ls[0] + "\n" + Unlines(ls[1..])
  }

  lemma SplitLinesCons(l: string, rest: string)
    requires Free(l, IsLineBreak)
    ensures SplitLines(l + "\n" + rest) == [l] + SplitLines(rest)
  {
    var s := l + "\n" + rest;
    assert s == l + ("\n" + rest);
    RunLengthWord(l, "\n" + rest, IsLineBreak);
    assert s[..|l|] == l && s[|l|..] == "\n" + rest && s[|l| + 1..] == rest;
  }

  /** Every line end ends a line, and "\r\n" is one. */
  lemma AnyBreakEndsLine(l: string, end: string, rest: string)
    requires Free(l, IsLineBreak)
    requires end == "\r\n" || (|end| == 1 && IsLineBreak(end[0]) && !("\r\n" <= end + rest))
    ensures SplitLines(l + end + rest) == [l] + SplitLines(rest)
  {
    var s := l + end + rest;
    assert s == l + (end + rest);
    RunLengthWord(l, end + rest, IsLineBreak);
    assert s[..|l|] == l && s[|l|..] == end + rest && s[|l| + |end|..] == rest;
    var both := end + rest;
    assert |both| >= 2 ==> both[..2] == [both[0], both[1]];
    assert BreakLength(end + rest) == |end|;
  }

  /** Printing one line each and splitting is the identity on exactly the break-free lines. */
  lemma {:induction false} SplitUnlines(ls: seq<string>)
    ensures SplitLines(Unlines(ls)) == ls <==> AreLines(ls)
    decreases |ls|
  {
    SplitLinesSpec(Unlines(ls));
    if AreLines(ls) && ls != [] {
      SplitLinesCons(ls[0], Unlines(ls[1..]));
      SplitUnlines(ls[1..]);
    }
  }

  /** The same without the newline at the very end, which `strip` removes. */
  lemma {:induction false} SplitJoinedLines(ls: seq<string>)
    requires AreLines(ls) && (ls != [] ==> ls[|ls| - 1] != "")
    ensures SplitLines(Join(ls, "\n")) == ls
    decreases |ls|
  {
    if |ls| == 1 {
      assert ls[0] + "" == ls[0];
      RunLengthWord(ls[0], "", IsLineBreak);
    } else if |ls| > 1 {
      SplitLinesCons(ls[0], Join(ls[1..], "\n"));
      SplitJoinedLines(ls[1..]);
    }
  }

  lemma {:induction false} UnlinesJoin(ls: seq<string>)
    requires ls != []
    ensures Unlines(ls) == Join(ls, "\n") + "\n"
    decreases |ls|
  {
    if |ls| == 1 {
      assert Unlines(ls[1..]) == "";
    } else {
      UnlinesJoin(ls[1..]);
    }
  }

  function AppendToLast(ls: seq<string>, tail: string): seq<string>
    requires ls != []
  {
    ls[|ls| - 1 := ls[|ls| - 1] + tail]
  }

  lemma {:induction false} JoinLonger(ls: seq<string>, tail: string, sep: string)
    requires ls != []
    ensures Join(AppendToLast(ls, tail), sep) == Join(ls, sep) + tail
    decreases |ls|
  {
    if |ls| > 1 {
      assert AppendToLast(ls, tail)[1..] == AppendToLast(ls[1..], tail);
      JoinLonger(ls[1..], tail, sep);
    }
  }

  /** Stripping a printed text takes the blanks and the newline behind its last line, nothing else. */
  lemma StripUnlines(ls: seq<string>, tail: string)
    requires ls != [] && ls[0] != "" && !IsSpace(ls[0][0])
    requires ls[|ls| - 1] != "" && Trimmed(ls[|ls| - 1], IsSpace) && Every(tail, IsSpace)
    ensures Strip(Unlines(AppendToLast(ls, tail)), IsSpace) == Join(ls, "\n")
  {
    var text := Join(ls, "\n");
    UnlinesJoin(AppendToLast(ls, tail));
    JoinLonger(ls, tail, "\n");
    JoinTrimmed(ls, "\n", IsSpace);
    StripEnd(text, tail + "\n");
    assert text + tail + "\n" == text + (tail + "\n");
  }

  lemma StrippedLines(ls: seq<string>, tail: string)
    requires ls != [] && ls[0] != "" && !IsSpace(ls[0][0]) && AreLines(ls)
    requires ls[|ls| - 1] != "" && Trimmed(ls[|ls| - 1], IsSpace) && Every(tail, IsSpace)
    ensures SplitLines(Strip(Unlines(AppendToLast(ls, tail)), IsSpace)) == ls
  {
    StripUnlines(ls, tail);
    SplitJoinedLines(ls);
  }

  lemma StripEnd(core: string, after: string)
    requires Trimmed(core, IsSpace) && Every(after, IsSpace)
    ensures Strip(core + after, IsSpace) == core
  {
    assert core + after == "" + core + after;
    StripPadded("", core, after, IsSpace);
  }

  /** A text joined from parts begins with the first part and ends with the last. */
  lemma {:induction false} JoinEnds(parts: seq<string>, sep: string)
    requires |parts| >= 1
    ensures parts[0] <= Join(parts, sep)
    ensures var last := parts[|parts| - 1]; var s := Join(parts, sep);
            |last| <= |s| && s[|s| - |last|..] == last
    decreases |parts|
  {
    if |parts| > 1 {
      JoinEnds(parts[1..], sep);
    }
  }

  /** Joining parts whose first and last are trimmed and not empty gives a trimmed text. */
  lemma JoinTrimmed(parts: seq<string>, sep: string, p: char -> bool)
    requires |parts| >= 1 && parts[0] != "" && parts[|parts| - 1] != ""
    requires !p(parts[0][0]) && !p(parts[|parts| - 1][|parts[|parts| - 1]| - 1])
    ensures Trimmed(Join(parts, sep), p) && Join(parts, sep) != ""
  {
    JoinEnds(parts, sep);
    var s, last := Join(parts, sep), parts[|parts| - 1];
    assert s[0] == parts[0][0];
    assert s[|s| - 1] == s[|s| - |last|..][|last| - 1];
  }

  // ---------------------------------------------------------------- decimal numbers

  predicate IsDigit(c: char) { '0' <= c <= '9' }

  function DigitChar(d: nat): (c: char)
    requires d < 10
    ensures IsDigit(c) && DigitValue(c) == d
  {
    ('0' as int + d) as char
  }

  function DigitValue(c: char): (d: nat)
    requires IsDigit(c)
    ensures d < 10
  {
    c as int - '0' as int
  }

  /** `str(n)` */
  function NatText(n: nat): (s: string)
    ensures s != "" && Every(s, IsDigit)
    ensures |s| == 1 <==> n < 10
    ensures |s| == 2 <==> 10 <= n < 100
  {
    if n < 10 then [DigitChar(n)] else NatText(n / 10) + [DigitChar(n % 10)]
  }

  /** `int(s)` for a string of digits. */
  function NatValue(s: string): nat
    requires Every(s, IsDigit)
  {
    if s == "" then 0 else 10 * NatValue(s[..|s| - 1]) + DigitValue(s[|s| - 1])
  }

  lemma {:induction false} NatRoundTrip(n: nat)
    ensures NatValue(NatText(n)) == n
  {
    var s := NatText(n);
    if n >= 10 {
      NatRoundTrip(n / 10);
      assert s[..|s| - 1] == NatText(n / 10);
    } else {
      assert s[..0] == "";
    }
  }

  /** Digit by digit. */
  lemma NatTextSpec(n: nat)
    ensures var last := ["0123456789"[n % 10]]; NatText(n) == if n < 10 then last else NatText(n / 10) + last
  {
  }

  /** `str(n)` for any integer. */
  function IntText(n: int): string {
    if n < 0 then "-" + NatText(-n) else NatText(n)
  }
}
