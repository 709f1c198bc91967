/**
 Address discovery in rrmngmnt/network.py: `find_ips` scans the output of `ip addr` with a regular
 expression, `find_ip_by_default_gw` selects the entry whose block holds the gateway (prefix
 notation, section 3.1 of RFC 4632), and `get_info` looks that entry's prefix up again by text.
 */
module Addresses {
  import opened Wrappers
  import opened Text

  predicate IsNoDigit(c: char) {
    !IsDigit(c)
  }

  predicate IsNoSlash(c: char) {
    c != '/'
  }

  // ---------------------------------------------------------------- the scanner

  /** `[0-9]+(?:\.[0-9]+){k}` at the front: the length of the match. */
  function Groups(s: string, k: nat): (r: Option<nat>)
    ensures r.Some? ==> 0 < r.value <= |s|
    decreases k
  {
    var n := RunLength(s, IsNoDigit);
    if n == 0 then None
    else if k == 0 then Some(n)
    else if n < |s| && s[n] == '.' then
      match Groups(s[n + 1..], k - 1)
      case None => None
      case Some(m) => Some(n + 1 + m)
    else None
  }

  /** The dotted groups of the expression behind the first number. */
  const DOTS: nat := 3

  /** `[/]+[0-9]{2}` behind the first `n` characters. */
  function MatchBehind(s: string, n: nat): (r: Option<nat>)
    requires n <= |s|
    ensures r.Some? ==> n + 3 <= r.value <= |s|
  {
    var m := RunLength(s[n..], IsNoSlash);
    if m > 0 && n + m + 2 <= |s| && IsDigit(s[n + m]) && IsDigit(s[n + m + 1]) then Some(n + m + 2) else None
  }

  /** `[0-9]+(?:\.[0-9]+){3}[/]+[0-9]{2}` at the front. */
  function MatchAt(s: string): (r: Option<nat>)
    ensures r.Some? ==> 3 < r.value <= |s|
  {
    match Groups(s, DOTS)
    case None => None
    case Some(n) => MatchBehind(s, n)
  }

  /** `re.findall(...)[0]`, if there is a match: the leftmost one. */
  function FindCidr(s: string): Option<string> {
    if s == "" then None
    else match MatchAt(s)
      case Some(n) => Some(s[..n])
      case None => FindCidr(s[1..])
  }

  // What the regular expression means, independently of how it is scanned for.

  predicate AreNumbers(gs: seq<string>) {
    forall i :: 0 <= i < |gs| ==> gs[i] != "" && Every(gs[i], IsDigit)
  }

  /** Four numbers with dots between them. */
  ghost predicate IsQuad(quad: string) {
    exists gs: seq<string> :: |gs| == 4 && AreNumbers(gs) && quad == Join(gs, ".")
  }

  ghost predicate IsCidrWith(w: string, quad: string, slashes: string, digits: string) {
    && IsQuad(quad)
    && slashes != "" && Free(slashes, IsNoSlash)
    && |digits| == 2 && Every(digits, IsDigit)
    && w == quad + (slashes + digits)
  }

  ghost predicate IsCidr(w: string) {
    exists quad, slashes, digits :: IsCidrWith(w, quad, slashes, digits)
  }

  lemma DigitsRun(g: string, rest: string)
    requires Every(g, IsDigit) && (rest != "" ==> !IsDigit(rest[0]))
    ensures RunLength(g + rest, IsNoDigit) == |g|
  {
    RunLengthWord(g, rest, IsNoDigit);
  }

  lemma {:induction false} GroupsOfJoin(gs: seq<string>, joined: string, rest: string, k: nat)
    requires |gs| == k + 1 && AreNumbers(gs) && (rest != "" ==> !IsDigit(rest[0]))
    requires joined == Join(gs, ".")
    ensures Groups(joined + rest, k) == Some(|joined|)
    decreases k
  {
    if k == 0 {
      DigitsRun(gs[0], rest);
    } else {
      var g, more := gs[0], gs[1..];
      var j := Join(more, ".");
      assert AreNumbers(more);
      GroupsOfJoin(more, j, rest, k - 1);
      GroupStep(g, j + rest, k);
      GroupText(g, j, rest);
    }
  }

  lemma GroupText(g: string, j: string, rest: string)
    ensures g + "." + j + rest == g + ("." + (j + rest))
  {
  }

  lemma GroupStep(g: string, tail: string, k: nat)
    requires g != "" && Every(g, IsDigit) && k > 0 && Groups(tail, k - 1).Some?
    ensures Groups(g + ("." + tail), k) == Some(|g| + 1 + Groups(tail, k - 1).value)
  {
    var s := g + ("." + tail);
    DigitsRun(g, "." + tail);
    assert s[|g|] == '.' && s[|g| + 1..] == tail;
  }

  lemma {:induction false} GroupsAreNumbers(s: string, k: nat) returns (gs: seq<string>)
    requires Groups(s, k).Some?
    ensures |gs| == k + 1 && AreNumbers(gs) && Join(gs, ".") == s[..Groups(s, k).value]
    decreases k
  {
    var n := RunLength(s, IsNoDigit);
    RunLengthSpec(s, IsNoDigit);
    if k == 0 {
      gs := [s[..n]];
    } else {
      var rest := GroupsAreNumbers(s[n + 1..], k - 1);
      gs := [s[..n]] + rest;
      JoinCons(s[..n], rest, ".");
      JoinedPrefix(s, n, Groups(s[n + 1..], k - 1).value);
    }
  }

  lemma JoinedPrefix(s: string, n: nat, m: nat)
    requires n + 1 + m <= |s| && s[n] == '.'
    ensures s[..n + 1 + m] == s[..n] + "." + s[n + 1..][..m]
  {
  }

  /**
   The scanner is the expression: it matches at the front exactly when some prefix is in the language,
   and that prefix is unique.
   */
  lemma ScannerIsExpression(s: string, w: string)
    ensures MatchAt(s).Some? ==> IsCidr(s[..MatchAt(s).value])
    ensures IsCidr(w) && w <= s ==> MatchAt(s) == Some(|w|)
  {
    if MatchAt(s).Some? {
      MatchIsCidr(s);
    }
    if IsCidr(w) && w <= s {
      PrefixIsMatched(s, w);
    }
  }

  lemma PrefixIsMatched(s: string, w: string)
    requires IsCidr(w) && w <= s
    ensures MatchAt(s) == Some(|w|)
  {
    var more := s[|w|..];
    assert s == w + more;
    CidrIsMatched(w, more);
  }

  lemma CidrIsMatched(w: string, more: string)
    requires IsCidr(w)
    ensures MatchAt(w + more) == Some(|w|)
  {
    var quad, slashes, digits :| IsCidrWith(w, quad, slashes, digits);
    PartsMatch(w, quad, slashes, digits, more);
  }

  lemma PartsMatch(w: string, quad: string, slashes: string, digits: string, more: string)
    requires IsCidrWith(w, quad, slashes, digits)
    ensures MatchAt(w + more) == Some(|w|)
  {
    AppendMore(quad, slashes, digits, more);
    CidrMatches(more, quad, slashes, digits);
  }

  lemma MatchIsCidr(s: string)
    requires MatchAt(s).Some?
    ensures IsCidr(s[..MatchAt(s).value])
  {
    var gs := GroupsAreNumbers(s, DOTS);
    var n := Groups(s, DOTS).value;
    assert IsQuad(s[..n]);
    BehindIsCidr(s, n);
  }

  lemma BehindIsCidr(s: string, n: nat)
    requires n <= |s| && MatchBehind(s, n).Some? && IsQuad(s[..n])
    ensures IsCidr(s[..MatchBehind(s, n).value])
  {
    var m := RunLength(s[n..], IsNoSlash);
    RunLengthSpec(s[n..], IsNoSlash);
    CutInThree(s, n, m, 2);
    assert IsCidrWith(s[..n + m + 2], s[..n], s[n..][..m], s[n + m..n + m + 2]);
  }

  lemma CutInThree(s: string, n: nat, m: nat, k: nat)
    requires n + m + k <= |s|
    ensures s[..n + m + k] == s[..n] + (s[n..][..m] + s[n + m..n + m + k])
  {
  }

  lemma CidrMatches(more: string, quad: string, slashes: string, digits: string)
    requires IsQuad(quad) && slashes != "" && Free(slashes, IsNoSlash) && |digits| == 2 && Every(digits, IsDigit)
    ensures MatchAt(quad + (slashes + (digits + more))) == Some(|quad| + |slashes| + 2)
  {
    var rest := slashes + (digits + more);
    assert rest[0] == slashes[0];
    GroupsOfQuad(quad, rest);
    BehindMatches(quad + rest, quad, slashes, digits, more);
  }

  lemma GroupsOfQuad(quad: string, rest: string)
    requires IsQuad(quad) && rest != "" && !IsDigit(rest[0])
    ensures Groups(quad + rest, DOTS) == Some(|quad|)
  {
    var gs: seq<string> :| |gs| == 4 && AreNumbers(gs) && quad == Join(gs, ".");
    GroupsOfJoin(gs, quad, rest, DOTS);
  }

  lemma AppendMore(quad: string, slashes: string, digits: string, more: string)
    ensures quad + (slashes + digits) + more == quad + (slashes + (digits + more))
  {
  }

  lemma BehindMatches(s: string, quad: string, slashes: string, digits: string, more: string)
    requires s == quad + (slashes + (digits + more))
    requires slashes != "" && Free(slashes, IsNoSlash) && |digits| == 2 && Every(digits, IsDigit)
    ensures MatchBehind(s, |quad|) == Some(|quad| + |slashes| + 2)
  {
    assert s[|quad|..] == slashes + (digits + more);
    RunLengthWord(slashes, digits + more, IsNoSlash);
    assert s[|quad| + |slashes|] == digits[0] && s[|quad| + |slashes| + 1] == digits[1];
  }

  /** A match ends in a slash and two digits. */
  lemma MatchEnds(s: string)
    requires MatchAt(s).Some?
    ensures var n := MatchAt(s).value; s[n - 3] == '/' && IsDigit(s[n - 2]) && IsDigit(s[n - 1])
  {
    var n := Groups(s, DOTS).value;
    var m := RunLength(s[n..], IsNoSlash);
    RunLengthSpec(s[n..], IsNoSlash);
    assert s[n..][..m][m - 1] == s[n + m - 1];
  }

  // ---------------------------------------------------------------- find_ips

  function Masks(lines: seq<string>): seq<string> {
    if lines == [] then []
    else (match FindCidr(lines[0]) case None => [] case Some(w) => [w]) + Masks(lines[1..])
  }

  function ValidOnes(masks: seq<string>, valid: string -> bool): seq<string> {
    if masks == [] then []
    else
      var ip := Split(masks[0], "/")[0];
      (if valid(ip) then [ip] else []) + ValidOnes(masks[1..], valid)
  }

  /** `find_ips`; `valid` stands for `netaddr.valid_ipv4`. */
  method FindIps(out: string, valid: string -> bool) returns (ips: seq<string>, masks: seq<string>)
    ensures masks == Masks(SplitLines(out)) && ips == ValidOnes(masks, valid)
  {
    ips, masks := [], [];
    var lines := SplitLines(out);
    for i := 0 to |lines|
      invariant masks + Masks(lines[i..]) == Masks(lines)
      invariant ips + ValidOnes(Masks(lines[i..]), valid) == ValidOnes(Masks(lines), valid)
    {
      var rest := lines[i + 1..];
      assert lines[i..][0] == lines[i] && lines[i..][1..] == rest;
      var cidr := FindCidr(lines[i]);
      if cidr.Some? {
        assert Masks(lines[i..]) == [cidr.value] + Masks(rest);
        Regroup(masks, cidr.value, Masks(rest));
        masks := masks + [cidr.value];
        var ip := Split(cidr.value, "/");
        ValidCons(cidr.value, Masks(rest), valid);
        Regroup(ips, ip[0], ValidOnes(Masks(rest), valid));
        if valid(ip[0]) {
          ips := ips + [ip[0]];
        }
      } else {
        assert Masks(lines[i..]) == Masks(rest);
      }
    }
    assert masks + [] == masks && ips + [] == ips;
  }

  lemma Regroup(a: seq<string>, x: string, b: seq<string>)
    ensures a + ([x] + b) == (a + [x]) + b
  {
  }

  lemma ValidCons(mask: string, rest: seq<string>, valid: string -> bool)
    ensures ValidOnes([mask] + rest, valid) ==
            var ip := Split(mask, "/")[0];
            if valid(ip) then [ip] + ValidOnes(rest, valid) else ValidOnes(rest, valid)
  {
    assert ([mask] + rest)[1..] == rest;
  }

  // ---------------------------------------------------------------- blocks

  datatype Cidr = Cidr(a: nat, b: nat, c: nat, d: nat, prefix: nat)

  predicate Valid(c: Cidr) {
    c.a < 256 && c.b < 256 && c.c < 256 && c.d < 256 && c.prefix <= 32
  }

  function Octets(c: Cidr): seq<string> {
    [NatText(c.a), NatText(c.b), NatText(c.c), NatText(c.d)]
  }

  function AddressText(c: Cidr): string {
    Join(Octets(c), ".")
  }

  function CidrText(c: Cidr): string {
    AddressText(c) + ("/" + NatText(c.prefix))
  }

  function Texts(cs: seq<Cidr>): seq<string> {
    if cs == [] then [] else [CidrText(cs[0])] + Texts(cs[1..])
  }

  /** One line of `ip addr`: an address between other text, or a line without any. */
  datatype Line = Inet(before: string, cidr: Cidr, after: string) | Other(text: string)

  /**
   The address is the first one with a prefix length in its line: no slash stands in front of it, or
   behind it if its prefix has one digit; and no digit or dot touches it.
   */
  predicate Plain(l: Line) {
    match l
    case Inet(before, cidr, after) =>
      && Valid(cidr) && StandsFree(before) && (after != "" ==> !IsDigit(after[0]))
      && (cidr.prefix < 10 ==> '/' !in after) && Free(before, IsLineBreak) && Free(after, IsLineBreak)
    case Other(text) => FindCidr(text) == None && Free(text, IsLineBreak)
  }

  predicate StandsFree(before: string) {
    '/' !in before && (before != "" ==> !IsAddressChar(before[|before| - 1]))
  }

  predicate AllPlain(ls: seq<Line>) {
    ls == [] || (Plain(ls[0]) && AllPlain(ls[1..]))
  }

  function LineText(l: Line): string {
    match l
    case Inet(before, cidr, after) => before + (CidrText(cidr) + after)
    case Other(text) => text
  }

  function LineTexts(ls: seq<Line>): seq<string> {
    if ls == [] then [] else [LineText(ls[0])] + LineTexts(ls[1..])
  }

  function Cidrs(ls: seq<Line>): seq<Cidr> {
    if ls == [] then [] else (if ls[0].Inet? then [ls[0].cidr] else []) + Cidrs(ls[1..])
  }

  predicate AllTwoDigits(cs: seq<Cidr>) {
    cs == [] || (cs[0].prefix >= 10 && AllTwoDigits(cs[1..]))
  }

  /** The blocks whose prefix has two digits. */
  function Listed(cs: seq<Cidr>): seq<Cidr> {
    if cs == [] then [] else (if cs[0].prefix >= 10 then [cs[0]] else []) + Listed(cs[1..])
  }

  /** `find_ips` lists exactly the printed addresses whose prefix has two digits, in order. */
  lemma FindsExactlyTwoDigitPrefixes(ls: seq<Line>)
    requires AllPlain(ls)
    ensures var masks := Masks(SplitLines(Unlines(LineTexts(ls))));
            masks == Texts(Listed(Cidrs(ls))) && (masks == Texts(Cidrs(ls)) <==> AllTwoDigits(Cidrs(ls)))
  {
    LinesOfPlain(ls);
    SplitUnlines(LineTexts(ls));
    MasksOfLines(ls);
    ListedAll(Cidrs(ls));
    TextsLength(Cidrs(ls));
    TextsLength(Listed(Cidrs(ls)));
  }

  lemma {:induction false} ListedAll(cs: seq<Cidr>)
    ensures |Listed(cs)| <= |cs|
    ensures if AllTwoDigits(cs) then Listed(cs) == cs else |Listed(cs)| < |cs|
    decreases |cs|
  {
    if cs != [] {
      ListedAll(cs[1..]);
    }
  }

  lemma {:induction false} TextsLength(cs: seq<Cidr>)
    ensures |Texts(cs)| == |cs|
    decreases |cs|
  {
    if cs != [] {
      TextsLength(cs[1..]);
    }
  }

  /** The addresses of the blocks, as far as they are valid. */
  function AddressTexts(cs: seq<Cidr>, valid: string -> bool): seq<string> {
    if cs == [] then []
    else (if valid(AddressText(cs[0])) then [AddressText(cs[0])] else []) + AddressTexts(cs[1..], valid)
  }

  /** The first result of `find_ips`: the address parts of the second, less what is not valid. */
  lemma FindsTheirAddresses(ls: seq<Line>, valid: string -> bool)
    requires AllPlain(ls)
    ensures ValidOnes(Masks(SplitLines(Unlines(LineTexts(ls)))), valid) == AddressTexts(Listed(Cidrs(ls)), valid)
  {
    FindsExactlyTwoDigitPrefixes(ls);
    ValidAddresses(Listed(Cidrs(ls)), valid);
  }

  lemma {:induction false} ValidAddresses(cs: seq<Cidr>, valid: string -> bool)
    ensures ValidOnes(Texts(cs), valid) == AddressTexts(cs, valid)
    decreases |cs|
  {
    if cs != [] {
      HalvesOfText(cs[0]);
      ValidAddresses(cs[1..], valid);
      ValidCons(CidrText(cs[0]), Texts(cs[1..]), valid);
    }
  }

  lemma {:induction false} LinesOfPlain(ls: seq<Line>)
    requires AllPlain(ls)
    ensures AreLines(LineTexts(ls))
    decreases |ls|
  {
    if ls != [] {
      LinesOfPlain(ls[1..]);
      if ls[0].Inet? {
        CidrTextChars(ls[0].cidr);
      }
    }
  }

  lemma {:induction false} MasksOfLines(ls: seq<Line>)
    requires AllPlain(ls)
    ensures Masks(LineTexts(ls)) == Texts(Listed(Cidrs(ls)))
    decreases |ls|
  {
    if ls != [] {
      MasksOfLines(ls[1..]);
      MaskOfLine(ls[0], LineTexts(ls[1..]));
      ListedLine(ls[0], Cidrs(ls[1..]));
    }
  }

  /** What a line prints, if it prints an address with two digits of prefix. */
  function Seen(l: Line): seq<Cidr> {
    if l.Inet? && l.cidr.prefix >= 10 then [l.cidr] else []
  }

  lemma MaskOfLine(l: Line, rest: seq<string>)
    requires Plain(l)
    ensures Masks([LineText(l)] + rest) == Texts(Seen(l)) + Masks(rest)
  {
    assert ([LineText(l)] + rest)[1..] == rest;
    if l.Inet? {
      FindInLine(l.before, l.cidr, l.after);
      TextsCons(l.cidr, []);
    }
  }

  lemma ListedLine(l: Line, rest: seq<Cidr>)
    ensures Texts(Listed((if l.Inet? then [l.cidr] else []) + rest)) == Texts(Seen(l)) + Texts(Listed(rest))
  {
    if l.Inet? {
      assert ([l.cidr] + rest)[1..] == rest;
      TextsCons(l.cidr, []);
      TextsCons(l.cidr, Listed(rest));
      assert [] + Listed(rest) == Listed(rest);
    } else {
      assert [] + rest == rest;
    }
  }

  lemma TextsCons(c: Cidr, cs: seq<Cidr>)
    ensures Texts([c] + cs) == [CidrText(c)] + Texts(cs)
  {
    assert ([c] + cs)[1..] == cs;
  }

  lemma OctetsText(c: Cidr)
    ensures AreNumbers(Octets(c))
    ensures AddressText(c) == NatText(c.a) + "." + (NatText(c.b) + "." + (NatText(c.c) + "." + NatText(c.d)))
  {
    var a, b, x, d := NatText(c.a), NatText(c.b), NatText(c.c), NatText(c.d);
    JoinCons(x, [d], ".");
    JoinCons(b, [x] + [d], ".");
    JoinCons(a, [b] + ([x] + [d]), ".");
    assert Octets(c) == [a] + ([b] + ([x] + [d]));
  }

  predicate IsAddressChar(c: char) {
    IsDigit(c) || c == '.'
  }

  lemma AddressChars(c: Cidr)
    ensures AddressText(c) != "" && Every(AddressText(c), IsAddressChar) && IsDigit(AddressText(c)[0])
  {
    OctetsText(c);
    DottedChars(NatText(c.c), NatText(c.d));
    DottedChars(NatText(c.b), NatText(c.c) + "." + NatText(c.d));
    DottedChars(NatText(c.a), NatText(c.b) + "." + (NatText(c.c) + "." + NatText(c.d)));
    assert AddressText(c)[0] == NatText(c.a)[0];
  }

  lemma DottedChars(g: string, rest: string)
    requires Every(g, IsDigit) && Every(rest, IsAddressChar)
    ensures Every(g + "." + rest, IsAddressChar)
  {
  }

  lemma CidrTextChars(c: Cidr)
    ensures Free(CidrText(c), IsLineBreak)
  {
    AddressChars(c);
    var address, prefix := AddressText(c), NatText(c.prefix);
    assert Free(address, IsLineBreak) && Free(prefix, IsLineBreak);
  }

  /** The scanner's answer for a line with one address: the address, or nothing if its prefix has one digit. */
  lemma FindInLine(before: string, c: Cidr, after: string)
    requires Plain(Inet(before, c, after))
    ensures FindCidr(before + (CidrText(c) + after)) == if c.prefix >= 10 then Some(CidrText(c)) else None
  {
    var s := CidrText(c) + after;
    SkipBefore(before, s);
    if c.prefix >= 10 {
      OctetsText(c);
      assert IsQuad(AddressText(c));
      assert IsCidrWith(CidrText(c), AddressText(c), "/", NatText(c.prefix));
      ScannerIsExpression(s, CidrText(c));
      assert s[..|CidrText(c)|] == CidrText(c);
    } else {
      OneDigitPrefix(c, after);
      NoMatch(s);
    }
  }

  lemma {:induction false} SkipBefore(before: string, s: string)
    requires StandsFree(before)
    ensures FindCidr(before + s) == FindCidr(s)
    decreases |before|
  {
    if before == "" {
      assert before + s == s;
    } else {
      assert (before + s)[1..] == before[1..] + s;
      NoMatchInFront(before, s);
      SkipBefore(before[1..], s);
    }
  }

  /** A match is a run of digits and dots up to a slash, so it cannot start in front of text that stands free. */
  lemma NoMatchInFront(before: string, s: string)
    requires before != "" && StandsFree(before)
    ensures MatchAt(before + s) == None
  {
    var t := before + s;
    assert forall i :: 0 <= i < |before| ==> t[i] == before[i];
    if MatchAt(t).Some? {
      MatchShape(t);
    }
  }

  lemma MatchShape(t: string)
    requires MatchAt(t).Some?
    ensures exists n :: 0 <= n < |t| && t[n] == '/' && forall i :: 0 <= i < n ==> IsAddressChar(t[i])
  {
    var gs := GroupsAreNumbers(t, DOTS);
    var n := Groups(t, DOTS).value;
    NumberChars(gs);
    var m := RunLength(t[n..], IsNoSlash);
    RunLengthSpec(t[n..], IsNoSlash);
    assert t[n..][..m][0] == t[n];
    forall i | 0 <= i < n ensures IsAddressChar(t[i]) { assert t[i] == t[..n][i]; }
  }

  lemma {:induction false} NumberChars(gs: seq<string>)
    requires AreNumbers(gs)
    ensures Every(Join(gs, "."), IsAddressChar)
    decreases |gs|
  {
    if |gs| > 1 {
      NumberChars(gs[1..]);
      DottedChars(gs[0], Join(gs[1..], "."));
    }
  }

  ghost predicate NoSlashDigits(s: string) {
    forall i :: 0 <= i && i + 2 < |s| && s[i] == '/' ==> !(IsDigit(s[i + 1]) && IsDigit(s[i + 2]))
  }

  lemma {:induction false} NoMatch(s: string)
    requires NoSlashDigits(s)
    ensures FindCidr(s) == None
    decreases |s|
  {
    if s != "" {
      if MatchAt(s).Some? {
        MatchEnds(s);
      }
      assert NoSlashDigits(s[1..]);
      NoMatch(s[1..]);
    }
  }

  lemma OneDigitPrefix(c: Cidr, after: string)
    requires Plain(Inet("", c, after)) && c.prefix < 10
    ensures NoSlashDigits(CidrText(c) + after)
  {
    AddressChars(c);
    var s, n := CidrText(c) + after, |AddressText(c)|;
    assert s[n] == '/' && |NatText(c.prefix)| == 1 && s[n + 2..] == after;
    assert forall i :: 0 <= i < n ==> s[i] == AddressText(c)[i];
    assert forall i :: n + 2 <= i < |s| ==> s[i] == after[i - n - 2];
    assert s[n + 1] == NatText(c.prefix)[0];
    assert forall i :: 0 <= i < |s| && s[i] == '/' ==> i == n;
  }

  // ---------------------------------------------------------------- selection by gateway

  function Pow2(n: nat): (r: nat)
    ensures r > 0
  {
    if n == 0 then 1 else 2 * Pow2(n - 1)
  }

  function AddressValue(c: Cidr): nat {
    ((c.a * 256 + c.b) * 256 + c.c) * 256 + c.d
  }

  /** `address in network`: equal after dropping the host bits. */
  predicate Holds(c: Cidr, g: nat)
    requires Valid(c)
  {
    g / Pow2(32 - c.prefix) == AddressValue(c) / Pow2(32 - c.prefix)
  }

  function Lowest(c: Cidr): int
    requires Valid(c)
  {
    AddressValue(c) / Pow2(32 - c.prefix) * Pow2(32 - c.prefix)
  }

  function Highest(c: Cidr): int
    requires Valid(c)
  {
    Lowest(c) + Pow2(32 - c.prefix) - 1
  }

  /** Sharing the prefix bits is lying between the lowest and the highest address of the block. */
  lemma HoldsIffBetween(c: Cidr, g: nat)
    requires Valid(c)
    ensures Holds(c, g) <==> Lowest(c) <= g <= Highest(c)
    ensures Lowest(c) <= AddressValue(c) <= Highest(c)
  {
    SameQuotient(AddressValue(c), g, Pow2(32 - c.prefix));
    SameQuotient(AddressValue(c), AddressValue(c), Pow2(32 - c.prefix));
  }

  lemma SameQuotient(v: nat, g: nat, k: nat)
    requires k > 0
    ensures g / k == v / k <==> v / k * k <= g <= v / k * k + k - 1
  {
    var q, p := v / k, g / k;
    assert g == p * k + g % k && 0 <= g % k < k;
    if p < q {
      MulStep(p, q, k);
    } else if p > q {
      MulStep(q, p, k);
    }
  }

  lemma MulStep(p: nat, q: nat, k: nat)
    requires p < q
    ensures p * k + k <= q * k
  {
    assert (q - p - 1) * k >= 0;
    assert (q - p - 1) * k == q * k - p * k - k;
  }

  // Membership bit by bit

  const WEIGHTS: seq<nat> := [128, 64, 32, 16, 8, 4, 2, 1]

  function Octet(c: Cidr, k: nat): nat
    requires k < 4
  {
    [c.a, c.b, c.c, c.d][k]
  }

  /** Bit `i` of the address, the highest bit of the first octet being bit 0. */
  predicate Bit(c: Cidr, i: nat)
    requires i < 32
  {
    Octet(c, i / 8) / WEIGHTS[i % 8] % 2 == 1
  }

  /** The first `n` bits of the two addresses are the same. */
  predicate BitsAgree(c: Cidr, e: Cidr, n: nat)
    requires n <= 32
  {
    forall i: nat :: i < n ==> (Bit(c, i) <==> Bit(e, i))
  }

  /** A block holds the addresses that share its first `prefix` bits, read octet by octet. */
  lemma HoldsIffBitsAgree(c: Cidr, e: Cidr)
    requires Valid(c) && Valid(e)
    ensures Holds(c, AddressValue(e)) <==> BitsAgree(c, e, c.prefix)
  {
    LeadingBits(c, e, c.prefix);
  }

  lemma {:induction false} LeadingBits(c: Cidr, e: Cidr, n: nat)
    requires Valid(c) && Valid(e) && n <= 32
    ensures AddressValue(e) / Pow2(32 - n) == AddressValue(c) / Pow2(32 - n) <==> BitsAgree(c, e, n)
    decreases n
  {
    var v, g, k := AddressValue(c), AddressValue(e), Pow2(32 - n);
    if n == 0 {
      WholeSpace(c);
      WholeSpace(e);
    } else {
      LeadingBits(c, e, n - 1);
      assert Pow2(32 - (n - 1)) == 2 * k;
      OneMoreBit(v, g, k);
      BitOfValue(c, n - 1);
      BitOfValue(e, n - 1);
      BitsAgreeStep(c, e, n);
    }
  }

  lemma OneMoreBit(v: nat, g: nat, k: nat)
    requires k > 0
    ensures g / k == v / k <==> g / (2 * k) == v / (2 * k) && (v / k % 2 == 1 <==> g / k % 2 == 1)
  {
    Halve(v, k);
    Halve(g, k);
  }

  lemma BitsAgreeStep(c: Cidr, e: Cidr, n: nat)
    requires 0 < n <= 32
    ensures BitsAgree(c, e, n) <==> BitsAgree(c, e, n - 1) && (Bit(c, n - 1) <==> Bit(e, n - 1))
  {
  }

  lemma WholeSpace(c: Cidr)
    requires Valid(c)
    ensures AddressValue(c) / Pow2(32) == 0
  {
    BytePowers(0);
    BytePowers(8);
    BytePowers(16);
    BytePowers(24);
    assert AddressValue(c) < 0x1_0000_0000 == Pow2(32);
  }

  lemma BytePowers(n: nat)
    ensures Pow2(n + 8) == 256 * Pow2(n)
  {
    assert Pow2(n + 4) == 2 * Pow2(n + 3) == 4 * Pow2(n + 2) == 8 * Pow2(n + 1) == 16 * Pow2(n);
    assert Pow2(n + 8) == 2 * Pow2(n + 7) == 4 * Pow2(n + 6) == 8 * Pow2(n + 5) == 16 * Pow2(n + 4);
  }

  lemma Halve(v: nat, k: nat)
    requires k > 0
    ensures v / (2 * k) == v / k / 2
    ensures v / k == 2 * (v / (2 * k)) + v / k % 2
  {
    DivDiv(v, k, 2);
  }

  lemma DivDiv(v: nat, k: nat, m: nat)
    requires k > 0 && m > 0
    ensures k * m > 0 && v / (k * m) == v / k / m
  {
    MulPositive(k, m);
    InTwoSteps(v, k, m, v / k, v % k, v / k / m, v / k % m);
  }

  lemma InTwoSteps(v: nat, k: nat, m: nat, q: nat, r: nat, s: nat, u: nat)
    requires k * m > 0 && v == k * q + r && r < k && q == m * s + u && u < m
    ensures v / (k * m) == s
  {
    TimesSum(k, m * s, u);
    Regrouped(k, m, s);
    MulStep(u, m, k);
    assert u * k == k * u && m * k == k * m;
    QuotientIs(v, k * m, s, k * u + r);
  }

  lemma Regrouped(k: nat, m: nat, s: nat)
    ensures k * (m * s) == (k * m) * s
  {
  }

  lemma MulPositive(k: nat, m: nat)
    requires k > 0 && m > 0
    ensures k * m > 0
  {
  }

  lemma QuotientIs(v: nat, k: nat, q: nat, r: nat)
    requires k > 0 && v == k * q + r && r < k
    ensures v / k == q
  {
    var p := v / k;
    assert v == k * p + v % k;
    if p < q {
      MulStep(p, q, k);
    } else if p > q {
      MulStep(q, p, k);
    }
  }

  /** Shifting the whole address right shows the same bit as shifting its octet. */
  lemma BitOfValue(c: Cidr, i: nat)
    requires Valid(c) && i < 32
    ensures AddressValue(c) / Pow2(31 - i) % 2 == Octet(c, i / 8) / WEIGHTS[i % 8] % 2
  {
    var k, w := i / 8, WEIGHTS[i % 8];
    PowerOfBit(i);
    TopOctets(c);
    assert Pow2(0) == 1;
    BytePowers(0);
    BytePowers(8);
    BytePowers(16);
    if k == 3 {
      BitOfLowOctet(ThreeOctets(c), c.d, i % 8);
    } else if k == 2 {
      DivDiv(AddressValue(c), 256, w);
      BitOfLowOctet(TwoOctets(c), c.c, i % 8);
    } else if k == 1 {
      DivDiv(AddressValue(c), 0x1_0000, w);
      BitOfLowOctet(c.a, c.b, i % 8);
    } else {
      DivDiv(AddressValue(c), 0x100_0000, w);
    }
  }

  lemma PowerOfBit(i: nat)
    requires i < 32
    ensures Pow2(31 - i) == [0x100_0000, 0x1_0000, 256, 1][i / 8] * WEIGHTS[i % 8]
  {
    var n := 7 - i % 8;
    SmallPower(n);
    BytePowers(n);
    BytePowers(n + 8);
    BytePowers(n + 16);
    assert 31 - i == n + 8 * (3 - i / 8);
  }

  lemma SmallPower(n: nat)
    requires n < 8
    ensures Pow2(n) == WEIGHTS[7 - n]
  {
    if n > 0 {
      SmallPower(n - 1);
    }
  }

  lemma BitOfLowOctet(x: nat, d: nat, j: nat)
    requires d < 256 && j < 8
    ensures (256 * x + d) / WEIGHTS[j] % 2 == d / WEIGHTS[j] % 2
  {
    match j
    case 0 => EvenPlus(256 * x + d, 128, x, d);
    case 1 => EvenPlus(256 * x + d, 64, 2 * x, d);
    case 2 => EvenPlus(256 * x + d, 32, 4 * x, d);
    case 3 => EvenPlus(256 * x + d, 16, 8 * x, d);
    case 4 => EvenPlus(256 * x + d, 8, 16 * x, d);
    case 5 => EvenPlus(256 * x + d, 4, 32 * x, d);
    case 6 => EvenPlus(256 * x + d, 2, 64 * x, d);
    case 7 => EvenPlus(256 * x + d, 1, 128 * x, d);
  }

  lemma EvenPlus(v: nat, w: nat, y: nat, d: nat)
    requires w > 0 && v == w * (2 * y) + d
    ensures v / w % 2 == d / w % 2
  {
    var q := d / w;
    assert d == w * q + d % w;
    TimesSum(w, 2 * y, q);
    QuotientIs(v, w, 2 * y + q, d % w);
  }

  lemma TimesSum(k: nat, a: nat, b: nat)
    ensures k * (a + b) == k * a + k * b
  {
  }

  /** /8, /16, /24 and /32 are about whole octets. */
  lemma WholeOctets(c: Cidr, e: Cidr)
    requires Valid(c) && Valid(e)
    ensures c.prefix == 8 ==> (Holds(c, AddressValue(e)) <==> c.a == e.a)
    ensures c.prefix == 16 ==> (Holds(c, AddressValue(e)) <==> c.a == e.a && c.b == e.b)
    ensures c.prefix == 24 ==> (Holds(c, AddressValue(e)) <==> c.a == e.a && c.b == e.b && c.c == e.c)
    ensures c.prefix == 32 ==> (Holds(c, AddressValue(e)) <==> c.a == e.a && c.b == e.b && c.c == e.c && c.d == e.d)
  {
    SamePair(c.a, c.b, e.a, e.b);
    SamePair(TwoOctets(c), c.c, TwoOctets(e), e.c);
    SamePair(ThreeOctets(c), c.d, ThreeOctets(e), e.d);
    HoldsTop(c, e);
  }

  lemma HoldsTop(c: Cidr, e: Cidr)
    requires Valid(c) && Valid(e)
    ensures c.prefix == 8 ==> (Holds(c, AddressValue(e)) <==> e.a == c.a)
    ensures c.prefix == 16 ==> (Holds(c, AddressValue(e)) <==> TwoOctets(e) == TwoOctets(c))
    ensures c.prefix == 24 ==> (Holds(c, AddressValue(e)) <==> ThreeOctets(e) == ThreeOctets(c))
    ensures c.prefix == 32 ==> (Holds(c, AddressValue(e)) <==> ThreeOctets(e) * 256 + e.d == ThreeOctets(c) * 256 + c.d)
  {
    TopOctets(c);
    TopOctets(e);
  }

  function TwoOctets(c: Cidr): nat {
    c.a * 256 + c.b
  }

  function ThreeOctets(c: Cidr): nat {
    TwoOctets(c) * 256 + c.c
  }

  lemma TopOctets(c: Cidr)
    requires Valid(c)
    ensures AddressValue(c) / Pow2(24) == c.a && AddressValue(c) / Pow2(16) == TwoOctets(c)
    ensures AddressValue(c) / Pow2(8) == ThreeOctets(c)
    ensures AddressValue(c) / Pow2(0) == ThreeOctets(c) * 256 + c.d
  {
    BytePowers(0);
    BytePowers(8);
    BytePowers(16);
    assert Pow2(0) == 1 && Pow2(8) == 256 && Pow2(16) == 0x1_0000 && Pow2(24) == 0x100_0000;
    QuotientIs(AddressValue(c), 256, ThreeOctets(c), c.d);
    QuotientIs(AddressValue(c), 0x1_0000, TwoOctets(c), c.c * 256 + c.d);
    QuotientIs(AddressValue(c), 0x100_0000, c.a, (c.b * 256 + c.c) * 256 + c.d);
  }

  lemma SamePair(x: nat, y: nat, x': nat, y': nat)
    requires y < 256 && y' < 256
    ensures x * 256 + y == x' * 256 + y' <==> x == x' && y == y'
  {
  }

  // netaddr.IPNetwork, for the texts the expression lets through

  predicate IsNumber(s: string) {
    s != "" && Every(s, IsDigit) && NatText(NatValue(s)) == s
  }

  /** None stands for the AddrFormatError. */
  function Network(text: string): (r: Option<Cidr>)
    ensures r.Some? ==> Valid(r.value)
  {
    var halves := Split(text, "/");
    var os := Split(halves[0], ".");
    if |halves| != 2 || |os| != 4 || !IsNumber(halves[1]) || !(forall i :: 0 <= i < 4 ==> IsNumber(os[i])) then None
    else
      var c := Cidr(NatValue(os[0]), NatValue(os[1]), NatValue(os[2]), NatValue(os[3]), NatValue(halves[1]));
      if Valid(c) then Some(c) else None
  }

  lemma NumberText(n: nat)
    ensures IsNumber(NatText(n)) && NatValue(NatText(n)) == n
  {
    NatRoundTrip(n);
  }

  lemma HalvesOfText(c: Cidr)
    ensures Split(CidrText(c), "/") == [AddressText(c), NatText(c.prefix)]
  {
    var halves := [AddressText(c), NatText(c.prefix)];
    AddressChars(c);
    assert halves[1..] == [NatText(c.prefix)];
    assert Join(halves, "/") == AddressText(c) + "/" + NatText(c.prefix);
    assert AddressText(c) + "/" + NatText(c.prefix) == AddressText(c) + ("/" + NatText(c.prefix));
    assert '/' !in AddressText(c) && '/' !in NatText(c.prefix);
    SplitSafeChar(halves, '/');
    SplitJoin(halves, "/");
  }

  lemma OctetsOfText(c: Cidr)
    ensures Split(AddressText(c), ".") == Octets(c)
  {
    assert forall i :: 0 <= i < 4 ==> '.' !in Octets(c)[i];
    SplitSafeChar(Octets(c), '.');
    SplitJoin(Octets(c), ".");
  }

  /** Parsing a printed block gives the block back. */
  lemma NetworkOfText(c: Cidr)
    requires Valid(c)
    ensures Network(CidrText(c)) == Some(c)
  {
    HalvesOfText(c);
    OctetsOfText(c);
    NumberText(c.a);
    NumberText(c.b);
    NumberText(c.c);
    NumberText(c.d);
    NumberText(c.prefix);
    var os := Octets(c);
    assert forall i :: 0 <= i < 4 ==> IsNumber(os[i]);
  }

  /** `netaddr.IPAddress`, for dotted quads. */
  function Address(text: string): Option<nat> {
    var os := Split(text, ".");
    if |os| != 4 || !(forall i :: 0 <= i < 4 ==> IsNumber(os[i])) then None
    else
      var c := Cidr(NatValue(os[0]), NatValue(os[1]), NatValue(os[2]), NatValue(os[3]), 32);
      if Valid(c) then Some(AddressValue(c)) else None
  }

  lemma AddressOfText(c: Cidr)
    requires Valid(c)
    ensures Address(AddressText(c)) == Some(AddressValue(c))
  {
    OctetsOfText(c);
    NumberText(c.a);
    NumberText(c.b);
    NumberText(c.c);
    NumberText(c.d);
    var os := Octets(c);
    assert forall i :: 0 <= i < 4 ==> IsNumber(os[i]);
  }

  /** Only the texts of valid blocks are networks, and only dotted quads of octets are addresses. */
  lemma NetworkIsPrinted(text: string)
    ensures Network(text).Some? ==> Valid(Network(text).value) && text == CidrText(Network(text).value)
  {
    var halves := Split(text, "/");
    SplitSpec(text, "/");
    if Network(text).Some? {
      var c := Network(text).value;
      QuadIsPrinted(halves[0], c);
      assert halves == [halves[0]] + [halves[1]];
      JoinCons(halves[0], [halves[1]], "/");
      assert halves[0] + "/" + halves[1] == halves[0] + ("/" + halves[1]);
    }
  }

  lemma QuadIsPrinted(quad: string, c: Cidr)
    requires var os := Split(quad, ".");
             && |os| == 4 && (forall i :: 0 <= i < 4 ==> IsNumber(os[i]))
             && c.a == NatValue(os[0]) && c.b == NatValue(os[1]) && c.c == NatValue(os[2]) && c.d == NatValue(os[3])
    ensures quad == AddressText(c)
  {
    var os := Split(quad, ".");
    SplitSpec(quad, ".");
    assert os == Octets(c);
  }

  lemma AddressIsPrinted(text: string)
    requires Address(text).Some?
    ensures exists c :: Valid(c) && text == AddressText(c) && Address(text) == Some(AddressValue(c))
  {
    var os := Split(text, ".");
    var c := Cidr(NatValue(os[0]), NatValue(os[1]), NatValue(os[2]), NatValue(os[3]), 32);
    QuadIsPrinted(text, c);
    AddressOfText(c);
  }

  datatype Error = AddrFormatError

  function Select(g: nat, texts: seq<string>): Result<Option<string>, Error> {
    if texts == [] then Ok(None)
    else match Network(texts[0])
      case None => Err(AddrFormatError)
      case Some(c) => if Holds(c, g) then Ok(Some(Split(texts[0], "/")[0])) else Select(g, texts[1..])
  }

  /** `find_ip_by_default_gw` */
  method FindIpByDefaultGw(gateway: string, texts: seq<string>) returns (r: Result<Option<string>, Error>)
    ensures r == match Address(gateway) { case None => Err(AddrFormatError) case Some(g) => Select(g, texts) }
  {
    var dgw := Address(gateway);
    if dgw == None {
      return Err(AddrFormatError);
    }
    var g := dgw.value;
    for i := 0 to |texts|
      invariant Select(g, texts) == Select(g, texts[i..])
    {
      assert texts[i..][0] == texts[i] && texts[i..][1..] == texts[i + 1..];
      var net := Network(texts[i]);
      if net == None {
        return Err(AddrFormatError);
      }
      if Holds(net.value, g) {
        return Ok(Some(Split(texts[i], "/")[0]));
      }
    }
    return Ok(None);
  }

  predicate AllValid(cs: seq<Cidr>) {
    forall i :: 0 <= i < |cs| ==> Valid(cs[i])
  }

  /** The earliest listed block that holds the gateway. */
  predicate IsEarliest(cs: seq<Cidr>, g: nat, i: nat)
    requires AllValid(cs)
  {
    i < |cs| && Holds(cs[i], g) && forall j :: 0 <= j < i ==> !Holds(cs[j], g)
  }

  /** The selected ip is the address of the earliest block that holds the gateway. */
  lemma {:induction false} SelectsEarliest(cs: seq<Cidr>, g: nat, i: nat)
    requires AllValid(cs) && IsEarliest(cs, g, i)
    ensures Select(g, Texts(cs)) == Ok(Some(AddressText(cs[i])))
    decreases |cs|
  {
    SelectFirst(cs[0], Texts(cs[1..]), g);
    if i > 0 {
      assert !Holds(cs[0], g);
      SelectsEarliest(cs[1..], g, i - 1);
    }
  }

  /** There is none exactly when no block holds the gateway. */
  lemma {:induction false} SelectsNone(cs: seq<Cidr>, g: nat)
    requires AllValid(cs)
    ensures Select(g, Texts(cs)) == Ok(None) <==> forall j :: 0 <= j < |cs| ==> !Holds(cs[j], g)
    decreases |cs|
  {
    if cs != [] {
      var rest := cs[1..];
      SelectFirst(cs[0], Texts(rest), g);
      if !Holds(cs[0], g) {
        SelectsNone(rest, g);
        if j :| 0 <= j < |rest| && Holds(rest[j], g) {
          assert cs[j + 1] == rest[j];
        } else {
          forall j | 0 < j < |cs| ensures !Holds(cs[j], g) { assert cs[j] == rest[j - 1]; }
        }
      }
    }
  }

  /** A text that is no network breaks the search, unless an earlier block holds the gateway. */
  lemma {:induction false} MalformedBreaks(cs: seq<Cidr>, g: nat, bad: string, more: seq<string>)
    requires AllValid(cs) && (forall j :: 0 <= j < |cs| ==> !Holds(cs[j], g))
    requires forall c :: Valid(c) ==> bad != CidrText(c)
    ensures Select(g, Texts(cs) + ([bad] + more)) == Err(AddrFormatError)
    decreases |cs|
  {
    var tail := [bad] + more;
    if cs == [] {
      BreaksAtFirst(bad, more, g);
      assert Texts(cs) + tail == tail;
    } else {
      var rest := cs[1..];
      assert !Holds(cs[0], g);
      forall j | 0 <= j < |rest| ensures !Holds(rest[j], g) { assert rest[j] == cs[j + 1]; }
      MalformedBreaks(rest, g, bad, more);
      SelectFirst(cs[0], Texts(rest) + tail, g);
      TextsThen(cs[0], rest, tail);
      assert cs == [cs[0]] + rest;
    }
  }

  lemma BreaksAtFirst(bad: string, more: seq<string>, g: nat)
    requires forall c :: Valid(c) ==> bad != CidrText(c)
    ensures Select(g, [bad] + more) == Err(AddrFormatError)
  {
    NetworkIsPrinted(bad);
  }

  lemma TextsThen(c: Cidr, cs: seq<Cidr>, tail: seq<string>)
    ensures Texts([c] + cs) + tail == [CidrText(c)] + (Texts(cs) + tail)
  {
    TextsCons(c, cs);
  }

  lemma SelectFirst(c: Cidr, rest: seq<string>, g: nat)
    requires Valid(c)
    ensures Select(g, [CidrText(c)] + rest) == if Holds(c, g) then Ok(Some(AddressText(c))) else Select(g, rest)
  {
    NetworkOfText(c);
    HalvesOfText(c);
    assert ([CidrText(c)] + rest)[1..] == rest;
  }

  // ---------------------------------------------------------------- the prefix in get_info

  /** `mask[0] if mask else "N/A"` over the texts that contain the ip's text. */
  function InfoPrefix(ip: string, texts: seq<string>): string {
    if texts == [] then "N/A"
    else if Contains(texts[0], ip) then
      var halves := Split(texts[0], "/");
      halves[|halves| - 1]
    else InfoPrefix(ip, texts[1..])
  }

  /**
   The text of block `e` contains the address text of `c`: the same two octets in the middle, and
   decimals of `e` around them that begin, or end, with further digits.
   */
  predicate Embeds(e: Cidr, c: Cidr) {
    && e.b == c.b && e.c == c.c
    && EndsWith(NatText(e.a), NatText(c.a)) && NatText(c.d) <= NatText(e.d)
  }

  predicate EndsWith(s: string, tail: string) {
    |tail| <= |s| && s[|s| - |tail|..] == tail
  }

  lemma ContainsIffEmbeds(e: Cidr, c: Cidr)
    ensures Contains(CidrText(e), AddressText(c)) <==> Embeds(e, c)
  {
    var s, q := CidrText(e), AddressText(c);
    OctetsText(e);
    OctetsText(c);
    if Embeds(e, c) {
      EmbeddedOccurs(e, c);
    }
    if i :| 0 <= i <= |s| && OccursAt(s, q, i) {
      OccurrenceEmbeds(e, c, s[..i], s[i + |q|..]);
    }
  }

  /** Where the dots of a block's text are. */
  lemma DottedText(c: Cidr, more: string)
    ensures AddressText(c) + more ==
            NatText(c.a) + ("." + (NatText(c.b) + ("." + (NatText(c.c) + ("." + (NatText(c.d) + more))))))
  {
    OctetsText(c);
    var rest := NatText(c.c) + "." + NatText(c.d);
    assert rest + more == NatText(c.c) + ("." + (NatText(c.d) + more));
    assert NatText(c.b) + "." + rest + more == NatText(c.b) + ("." + (rest + more));
  }

  lemma EmbeddedOccurs(e: Cidr, c: Cidr)
    requires Embeds(e, c)
    ensures Contains(CidrText(e), AddressText(c))
  {
    var more := "/" + NatText(e.prefix);
    var x, y := NatText(e.a)[..|NatText(e.a)| - |NatText(c.a)|], NatText(e.d)[|NatText(c.d)|..];
    DottedText(e, more);
    DottedText(c, y + more);
    assert NatText(e.d) + more == NatText(c.d) + (y + more);
    var rest := "." + (NatText(c.b) + ("." + (NatText(c.c) + ("." + (NatText(c.d) + (y + more))))));
    assert NatText(e.a) == x + NatText(c.a);
    FrontOff(x, NatText(c.a), rest);
    assert CidrText(e) == x + (AddressText(c) + (y + more));
    OccursMiddle(x, AddressText(c), y + more);
  }

  lemma FrontOff(x: string, a: string, rest: string)
    ensures (x + a) + rest == x + (a + rest)
  {
  }

  lemma OccursMiddle(x: string, q: string, rest: string)
    ensures Contains(x + (q + rest), q)
  {
    var s := x + (q + rest);
    assert s[|x|..|x| + |q|] == q;
    assert OccursAt(s, q, |x|);
  }

  function Dots(s: string): nat {
    if s == "" then 0 else (if s[0] == '.' then 1 else 0) + Dots(s[1..])
  }

  lemma {:induction false} DotsConcat(a: string, b: string)
    ensures Dots(a + b) == Dots(a) + Dots(b)
  {
    if a == "" {
      assert a + b == b;
    } else {
      assert (a + b)[1..] == a[1..] + b;
      DotsConcat(a[1..], b);
    }
  }

  lemma {:induction false} NoDots(s: string)
    ensures Dots(s) == 0 <==> '.' !in s
  {
    if s != "" {
      NoDots(s[1..]);
      assert s == [s[0]] + s[1..];
    }
  }

  lemma ThreeDots(c: Cidr, more: string)
    ensures Dots(AddressText(c) + more) == 3 + Dots(more)
  {
    DottedText(c, more);
    OneDot(c.c, NatText(c.d) + more);
    NoDots(NatText(c.d));
    DotsConcat(NatText(c.d), more);
    OneDot(c.b, NatText(c.c) + ("." + (NatText(c.d) + more)));
    OneDot(c.a, NatText(c.b) + ("." + (NatText(c.c) + ("." + (NatText(c.d) + more)))));
  }

  lemma OneDot(n: nat, rest: string)
    ensures Dots(NatText(n) + ("." + rest)) == 1 + Dots(rest)
  {
    NoDots(NatText(n));
    DotsConcat(NatText(n), "." + rest);
    assert ("." + rest)[1..] == rest;
  }

  lemma FirstDot(a: string, r: string, b: string, t: string)
    requires '.' !in a && '.' !in b && a + ("." + r) == b + ("." + t)
    ensures a == b && r == t
  {
    var s := a + ("." + r);
    assert s[|a|] == '.' && s[|b|] == '.';
    forall i | 0 <= i < |a| ensures s[i] == a[i] { }
    forall i | 0 <= i < |b| ensures s[i] == b[i] { }
    assert a == s[..|a|] && b == s[..|b|] && r == s[|a| + 1..] && t == s[|b| + 1..];
  }

  /** Three dots against three: an occurrence lines up octet by octet. */
  lemma OccurrenceEmbeds(e: Cidr, c: Cidr, x: string, y: string)
    requires CidrText(e) == x + AddressText(c) + y
    ensures Embeds(e, c)
  {
    var more := "/" + NatText(e.prefix);
    NoDots(more);
    ThreeDots(e, more);
    ThreeDots(c, y);
    assert x + AddressText(c) + y == x + (AddressText(c) + y);
    DotsConcat(x, AddressText(c) + y);
    NoDots(x);
    DottedText(e, more);
    DottedText(c, y);
    LineUp(x, NatText(c.a), NatText(c.b), NatText(c.c), NatText(c.d) + y,
           NatText(e.a), NatText(e.b), NatText(e.c), NatText(e.d) + more);
    assert NatText(e.a)[|x|..] == NatText(c.a);
    NumberText(c.b);
    NumberText(e.b);
    NumberText(c.c);
    NumberText(e.c);
    DigitsThenSlash(NatText(c.d), y, NatText(e.d), NatText(e.prefix));
  }

  lemma LineUp(x: string, a: string, b: string, c: string, d: string, a': string, b': string, c': string, d': string)
    requires x + (a + ("." + (b + ("." + (c + ("." + d)))))) == a' + ("." + (b' + ("." + (c' + ("." + d')))))
    requires '.' !in x && '.' !in a && '.' !in b && '.' !in c && '.' !in a' && '.' !in b' && '.' !in c'
    ensures a' == x + a && b == b' && c == c' && d == d'
  {
    var r, r' := b + ("." + (c + ("." + d))), b' + ("." + (c' + ("." + d')));
    assert x + (a + ("." + r)) == (x + a) + ("." + r);
    FirstDot(x + a, r, a', r');
    FirstDot(b, c + ("." + d), b', c' + ("." + d'));
    FirstDot(c, d, c', d');
  }

  lemma DigitsThenSlash(d: string, y: string, d': string, rest: string)
    requires Every(d, IsDigit) && d + y == d' + ("/" + rest)
    ensures d <= d'
  {
    var s := d + y;
    assert s[|d'|] == '/';
    forall i | 0 <= i < |d| ensures s[i] == d[i] { }
    assert d == s[..|d|] && d' == s[..|d'|];
  }

  lemma EmbedsItself(c: Cidr)
    ensures Embeds(c, c)
  {
    assert NatText(c.a)[0..] == NatText(c.a);
  }

  /** The first listed block whose text contains the address of `c`. */
  function FirstEmbedding(cs: seq<Cidr>, c: Cidr): (i: nat)
    ensures i <= |cs|
  {
    if cs == [] || Embeds(cs[0], c) then 0 else 1 + FirstEmbedding(cs[1..], c)
  }

  lemma {:induction false} FirstEmbeddingSpec(cs: seq<Cidr>, c: Cidr)
    ensures var i := FirstEmbedding(cs, c);
            (i < |cs| ==> Embeds(cs[i], c)) && forall j :: 0 <= j < i ==> !Embeds(cs[j], c)
    decreases |cs|
  {
    if cs != [] && !Embeds(cs[0], c) {
      var rest := cs[1..];
      FirstEmbeddingSpec(rest, c);
      forall j | 0 < j < 1 + FirstEmbedding(rest, c) ensures !Embeds(cs[j], c) {
        assert cs[j] == rest[j - 1];
      }
    }
  }

  lemma {:induction false} InfoPrefixSpec(cs: seq<Cidr>, c: Cidr)
    ensures var i := FirstEmbedding(cs, c);
            InfoPrefix(AddressText(c), Texts(cs)) == if i < |cs| then NatText(cs[i].prefix) else "N/A"
    decreases |cs|
  {
    if cs != [] {
      HalvesOfText(cs[0]);
      ContainsIffEmbeds(cs[0], c);
      InfoPrefixSpec(cs[1..], c);
      assert Texts(cs)[1..] == Texts(cs[1..]);
    }
  }

  /**
   `get_info` reports the prefix of the first block that embeds the selected address
   (`FirstEmbeddingSpec`), and so that of the block it selected exactly when those prefixes agree. It
   never reports "N/A"; and the prefix is right whenever no earlier block embeds the address.
   */
  lemma InfoPrefixIsRight(cs: seq<Cidr>, g: nat, i: nat)
    requires AllValid(cs) && IsEarliest(cs, g, i)
    ensures var ip := AddressText(cs[i]); var first := FirstEmbedding(cs, cs[i]);
            && Select(g, Texts(cs)) == Ok(Some(ip))
            && first <= i && InfoPrefix(ip, Texts(cs)) == NatText(cs[first].prefix) != "N/A"
            && (InfoPrefix(ip, Texts(cs)) == NatText(cs[i].prefix) <==> cs[first].prefix == cs[i].prefix)
            && ((forall j :: 0 <= j < i ==> !Embeds(cs[j], cs[i])) ==> first == i)
  {
    SelectsEarliest(cs, g, i);
    EmbedsItself(cs[i]);
    FirstEmbeddingSpec(cs, cs[i]);
    var first := FirstEmbedding(cs, cs[i]);
    InfoPrefixSpec(cs, cs[i]);
    NumberText(cs[first].prefix);
    NumberText(cs[i].prefix);
  }

  // ---------------------------------------------------------------- the whole of it

  /** The part of `get_info`'s answer that is modelled; None stands for a key that is not there, or None. */
  datatype Info = Info(gateway: Option<string>, ip: Option<string>, prefix: Option<string>)

  function InfoOf(out: string, gateway: Option<string>): Result<Info, Error> {
    match gateway
    case None => Ok(Info(None, None, None))
    case Some(text) =>
      match Address(text)
      case None => Err(AddrFormatError)
      case Some(g) =>
        var masks := Masks(SplitLines(out));
        match Select(g, masks)
        case Err(e) => Err(e)
        case Ok(None) => Ok(Info(gateway, None, None))
        case Ok(Some(ip)) => Ok(Info(gateway, Some(ip), Some(InfoPrefix(ip, masks))))
  }

  /** `get_info` up to the prefix, for the gateway `find_default_gw` gave. */
  method GetInfo(out: string, gateway: Option<string>, valid: string -> bool) returns (r: Result<Info, Error>)
    ensures r == InfoOf(out, gateway)
  {
    var info := Info(gateway, None, None);
    var ips, masks := FindIps(out, valid);
    if gateway.Some? {
      var ip := FindIpByDefaultGw(gateway.value, masks);
      if ip.Err? {
        return Err(ip.error);
      }
      if ip.value.Some? {
        info := info.(ip := ip.value, prefix := Some(InfoPrefix(ip.value.value, masks)));
      }
    }
    return Ok(info);
  }

  /**
   From the text of `ip addr` to the answer: among the printed addresses whose prefix has two digits,
   the earliest whose block holds the gateway is reported, with the prefix of the first that embeds
   it; and none exactly when no such block holds the gateway.
   */
  lemma InfoOfListing(ls: seq<Line>, gw: Cidr, i: nat)
    requires AllPlain(ls) && Valid(gw)
    ensures var cs := Listed(Cidrs(ls)); var g := AddressValue(gw); var text := Some(AddressText(gw));
            var answer := InfoOf(Unlines(LineTexts(ls)), text);
            && AllValid(cs)
            && (answer == Ok(Info(text, None, None)) <==> forall j :: 0 <= j < |cs| ==> !Holds(cs[j], g))
            && (IsEarliest(cs, g, i) ==>
                  && FirstEmbedding(cs, cs[i]) <= i
                  && var prefix := NatText(cs[FirstEmbedding(cs, cs[i])].prefix);
                     answer == Ok(Info(text, Some(AddressText(cs[i])), Some(prefix))))
  {
    var cs, g := Listed(Cidrs(ls)), AddressValue(gw);
    PlainIsValid(ls);
    InfoOfMasks(ls, gw);
    SelectsNone(cs, g);
    if IsEarliest(cs, g, i) {
      InfoPrefixIsRight(cs, g, i);
    }
  }

  lemma InfoOfMasks(ls: seq<Line>, gw: Cidr)
    requires AllPlain(ls) && Valid(gw)
    ensures var masks := Texts(Listed(Cidrs(ls))); var text := Some(AddressText(gw));
            InfoOf(Unlines(LineTexts(ls)), text) ==
            match Select(AddressValue(gw), masks)
            case Err(e) => Err(e)
            case Ok(None) => Ok(Info(text, None, None))
            case Ok(Some(ip)) => Ok(Info(text, Some(ip), Some(InfoPrefix(ip, masks))))
  {
    FindsExactlyTwoDigitPrefixes(ls);
    AddressOfText(gw);
  }

  lemma {:induction false} PlainIsValid(ls: seq<Line>)
    requires AllPlain(ls)
    ensures AllValid(Listed(Cidrs(ls)))
    decreases |ls|
  {
    if ls != [] {
      PlainIsValid(ls[1..]);
      if ls[0].Inet? {
        assert Cidrs(ls)[1..] == Cidrs(ls[1..]);
      } else {
        assert Cidrs(ls) == Cidrs(ls[1..]);
      }
    }
  }

  /** An entry with one more leading digit, listed earlier, gives the wrong prefix: 110.x.y.z in front of 10.x.y.z. */
  lemma LongerAddressSpoilsPrefix(c: Cidr, q: nat, g: nat)
    requires Valid(c) && 10 <= c.a < 100 && q <= 32 && q != c.prefix
    requires Holds(c, g) && !Holds(c.(a := c.a + 100, prefix := q), g)
    ensures var cs := [c.(a := c.a + 100, prefix := q), c];
            && Select(g, Texts(cs)) == Ok(Some(AddressText(c)))
            && InfoPrefix(AddressText(c), Texts(cs)) == NatText(q) != NatText(c.prefix)
  {
    var e := c.(a := c.a + 100, prefix := q);
    var cs := [e, c];
    assert IsEarliest(cs, g, 1);
    InfoPrefixIsRight(cs, g, 1);
    LongerTextEmbeds(c, e);
    assert FirstEmbedding(cs, c) == 0;
    InfoPrefixSpec(cs, c);
    NumberText(q);
    NumberText(c.prefix);
  }

  lemma LongerTextEmbeds(c: Cidr, e: Cidr)
    requires 10 <= c.a < 100 && e == c.(a := c.a + 100, prefix := e.prefix)
    ensures Embeds(e, c)
  {
    HundredText(c.a);
    assert ("1" + NatText(c.a))[1..] == NatText(c.a);
  }

  lemma HundredText(n: nat)
    requires 10 <= n < 100
    ensures NatText(n + 100) == "1" + NatText(n)
  {
    var t := n / 10;
    assert (n + 100) / 10 == t + 10 && (n + 100) % 10 == n % 10;
    assert NatText(t + 10) == NatText(1) + [DigitChar(t)];
    assert NatText(n) == NatText(t) + [DigitChar(n % 10)] && NatText(t) == [DigitChar(t)];
    assert NatText(1) == "1";
    assert "1" + [DigitChar(t)] + [DigitChar(n % 10)] == "1" + ([DigitChar(t)] + [DigitChar(n % 10)]);
  }
}
