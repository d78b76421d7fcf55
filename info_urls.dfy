/**
 * The "More info" post-processor for linter output: a line whose first
 * `[X123(` message code is a known code gets the code's documentation URL
 * appended.  The stdin/stdout loop around it is not part of this model.
 */
module InfoUrls {
  import opened Common

  /** The fixed table of message codes and their documentation URLs. */
  const InfoUrl: map<string, string> := map[
    "W8161" := "https://github.com/odoo/odoo/pull/174844",
    "W8301" := "https://github.com/odoo/odoo/pull/174844",
    "W8113" := "https://github.com/OCA/odoo-community.org/blob/master/website/Contribution/CONTRIBUTING.rst",
    "W8120" := "https://github.com/OCA/odoo-community.org/blob/master/website/Contribution/CONTRIBUTING.rst",
    "C8101" := "https://github.com/OCA/maintainer-tools",
    "E0602" := "https://docs.python.org/3/tutorial/errors.html",
    "E1101" := "https://pylint.pycqa.org/en/latest/user_guide/messages/error/no-member.html",
    "W0611" := "https://pylint.pycqa.org/en/latest/user_guide/messages/warning/unused-import.html",
    "W0612" := "https://pylint.pycqa.org/en/latest/user_guide/messages/warning/unused-variable.html",
    "W0107" := "https://pylint.pycqa.org/en/latest/user_guide/messages/warning/unnecessary-pass.html",
    "R1705" := "https://pylint.pycqa.org/en/latest/user_guide/messages/refactor/no-else-return.html"
  ]

  const MoreInfo: string := " More info at "

  /** `[A-Z]` of the pattern. */
  predicate IsUpper(c: char) { 'A' <= c <= 'Z' }

  /** `n` is one of the ten code points from `zero`, a decimal digit block. */
  predicate DigitFrom(n: int, zero: int) { zero <= n <= zero + 9 }

  /**
   * `\d` of the pattern on a `str`: a character of the Unicode category Nd
   * (decimal digit), as in Unicode 15.0, whose digits come in blocks of
   * ten from a zero.  The ASCII digits are the first block.
   */
  predicate IsDigit(c: char) {
    ('0' <= c <= '9') || (c as int >= 0x660 && IsOtherDigitCode(c as int))
  }

  /** The code point `n` lies in one of the decimal digit blocks after the ASCII one. */
  predicate IsOtherDigitCode(n: int) {
    DigitFrom(n, 0x660) || DigitFrom(n, 0x6F0) || DigitFrom(n, 0x7C0) || DigitFrom(n, 0x966)
    || DigitFrom(n, 0x9E6) || DigitFrom(n, 0xA66) || DigitFrom(n, 0xAE6) || DigitFrom(n, 0xB66) || DigitFrom(n, 0xBE6)
    || DigitFrom(n, 0xC66) || DigitFrom(n, 0xCE6) || DigitFrom(n, 0xD66) || DigitFrom(n, 0xDE6) || DigitFrom(n, 0xE50)
    || DigitFrom(n, 0xED0) || DigitFrom(n, 0xF20) || DigitFrom(n, 0x1040) || DigitFrom(n, 0x1090) || DigitFrom(n, 0x17E0)
    || DigitFrom(n, 0x1810) || DigitFrom(n, 0x1946) || DigitFrom(n, 0x19D0) || DigitFrom(n, 0x1A80) || DigitFrom(n, 0x1A90)
    || DigitFrom(n, 0x1B50) || DigitFrom(n, 0x1BB0) || DigitFrom(n, 0x1C40) || DigitFrom(n, 0x1C50) || DigitFrom(n, 0xA620)
    || DigitFrom(n, 0xA8D0) || DigitFrom(n, 0xA900) || DigitFrom(n, 0xA9D0) || DigitFrom(n, 0xA9F0) || DigitFrom(n, 0xAA50)
    || DigitFrom(n, 0xABF0) || DigitFrom(n, 0xFF10) || DigitFrom(n, 0x104A0) || DigitFrom(n, 0x10D30) || DigitFrom(n, 0x11066)
    || DigitFrom(n, 0x110F0) || DigitFrom(n, 0x11136) || DigitFrom(n, 0x111D0) || DigitFrom(n, 0x112F0) || DigitFrom(n, 0x11450)
    || DigitFrom(n, 0x114D0) || DigitFrom(n, 0x11650) || DigitFrom(n, 0x116C0) || DigitFrom(n, 0x11730) || DigitFrom(n, 0x118E0)
    || DigitFrom(n, 0x11950) || DigitFrom(n, 0x11C50) || DigitFrom(n, 0x11D50) || DigitFrom(n, 0x11DA0) || DigitFrom(n, 0x11F50)
    || DigitFrom(n, 0x16A60) || DigitFrom(n, 0x16AC0) || DigitFrom(n, 0x16B50) || DigitFrom(n, 0x1D7CE) || DigitFrom(n, 0x1D7D8)
    || DigitFrom(n, 0x1D7E2) || DigitFrom(n, 0x1D7EC) || DigitFrom(n, 0x1D7F6) || DigitFrom(n, 0x1E140) || DigitFrom(n, 0x1E2F0)
    || DigitFrom(n, 0x1E4F0) || DigitFrom(n, 0x1E950) || DigitFrom(n, 0x1FBF0)
  }

  /** The characters Python's `str.rstrip()` removes (those for which `isspace()` holds). */
  predicate IsSpace(c: char) {
    ('\t' <= c <= '\r') || ('\U{1C}' <= c <= ' ') || c == '\U{85}' || c == '\U{A0}'
    || c == '\U{1680}' || ('\U{2000}' <= c <= '\U{200A}') || c == '\U{2028}' || c == '\U{2029}'
    || c == '\U{202F}' || c == '\U{205F}' || c == '\U{3000}'
  }

  /**
   * The pattern `\[([A-Z]\d+)\(` matches `s[i..j+1]`: a bracket at `i`, an
   * upper-case letter, a non-empty run of digits ending before `j`, and an
   * opening parenthesis at `j`.  This is the regular expression's meaning,
   * stated independently of how the search below finds it.
   */
  ghost predicate MatchSpan(s: string, i: int, j: int) {
    0 <= i && i + 2 < j < |s|
    && s[i] == '[' && IsUpper(s[i + 1])
    && (forall k | i + 2 <= k < j :: IsDigit(s[k]))
    && s[j] == '('
  }

  /** The end of the run of digits that starts at `i`. */
  function DigitRunEnd(s: string, i: nat): (j: nat)
    requires i <= |s|
    ensures i <= j <= |s|
    ensures forall k | i <= k < j :: IsDigit(s[k])
    ensures j == |s| || !IsDigit(s[j])
    decreases |s| - i
  {
    if i < |s| && IsDigit(s[i]) then DigitRunEnd(s, i + 1) else i
  }

  /** A match starting at `i` has exactly one end: the end of the digit run. */
  lemma MatchEndUnique(s: string, i: int, j: int)
    requires 0 <= i && i + 2 <= |s|
    ensures MatchSpan(s, i, j) ==> j == DigitRunEnd(s, i + 2)
  {
    if MatchSpan(s, i, j) {
      var e := DigitRunEnd(s, i + 2);
      assert j == e;
    }
  }

  /** The match found by scanning from position `i`: its start and the end of its code. */
  datatype Match = Match(start: nat, end: nat)

  /**
   * Leftmost match of the pattern at or after position `i`, as Python's
   * `re.search` finds it.
   */
  function SearchFrom(s: string, i: nat): (r: Option<Match>)
    requires i <= |s|
    ensures r.None? ==> forall p, q | i <= p :: !MatchSpan(s, p, q)
    ensures r.Some? ==> i <= r.value.start && MatchSpan(s, r.value.start, r.value.end)
    ensures r.Some? ==> forall p, q | i <= p < r.value.start :: !MatchSpan(s, p, q)
    decreases |s| - i
  {
    if i + 2 >= |s| then None
    else if s[i] == '[' && IsUpper(s[i + 1]) && IsDigit(s[i + 2])
         && DigitRunEnd(s, i + 2) < |s| && s[DigitRunEnd(s, i + 2)] == '(' then
      Some(Match(i, DigitRunEnd(s, i + 2)))
    else
      var rest := SearchFrom(s, i + 1);
      assert forall q :: !MatchSpan(s, i, q) by {
        forall q ensures !MatchSpan(s, i, q) { MatchEndUnique(s, i, q); }
      }
      rest
  }

  /** The message code of the first match in `line`, if there is one. */
  function FirstCode(line: string): (r: Option<string>)
    ensures r.None? <==> forall p, q :: !MatchSpan(line, p, q)
    ensures r.Some? ==> exists p, q :: MatchSpan(line, p, q) && r.value == line[p + 1..q]
                                    && forall p', q' | p' < p :: !MatchSpan(line, p', q')
  {
    match SearchFrom(line, 0)
    case None => None
    case Some(m) => Some(line[m.start + 1..m.end])
  }

  /** `line.rstrip()`: the line with its trailing whitespace removed. */
  function RStrip(line: string): (r: string)
    ensures r <= line
    ensures r == [] || !IsSpace(r[|r| - 1])
    ensures forall k | |r| <= k < |line| :: IsSpace(line[k])
  {
    if line != [] && IsSpace(line[|line| - 1]) then RStrip(line[..|line| - 1]) else line
  }

  /** `m` is the leftmost match of the pattern in `line`. */
  ghost predicate FirstMatch(line: string, p: int, q: int) {
    MatchSpan(line, p, q) && forall p', q' | p' < p :: !MatchSpan(line, p', q')
  }

  /**
   * `r` is what the script writes for `line`: the line itself when the
   * pattern does not occur or its first code is unknown; otherwise the
   * right-stripped line, " More info at ", the code's URL and a newline.
   */
  ghost predicate AnnotatedLine(line: string, r: string) {
    ((forall p, q :: !MatchSpan(line, p, q)) ==> r == line)
    && forall p, q | FirstMatch(line, p, q) ::
         (line[p + 1..q] in InfoUrl ==> r == RStrip(line) + MoreInfo + InfoUrl[line[p + 1..q]] + "\n")
         && (line[p + 1..q] !in InfoUrl ==> r == line)
  }

  /** The code of the line's first match, wherever that match is. */
  lemma FirstCodeOfFirstMatch(line: string)
    ensures forall p, q | FirstMatch(line, p, q) :: FirstCode(line) == Some(line[p + 1..q])
  {
    forall p, q | FirstMatch(line, p, q) ensures FirstCode(line) == Some(line[p + 1..q]) {
      SearchFindsFirst(line, p, q);
    }
  }

  /** Appends the documentation URL of the line's first message code when that code is known. */
  function AddInfoUrls(line: string): (r: string)
    ensures AnnotatedLine(line, r)
  {
    FirstCodeOfFirstMatch(line);
    match FirstCode(line)
    case Some(code) =>
      if code in InfoUrl then RStrip(line) + MoreInfo + InfoUrl[code] + "\n" else line
    case None => line
  }

  /** A line with no match of the pattern is returned unchanged. */
  lemma NoMatchUnchanged(line: string)
    requires forall p, q :: !MatchSpan(line, p, q)
    ensures AddInfoUrls(line) == line
  {
  }

  /**
   * Only the first match counts: if the first code is known, the URL is its
   * URL; if it is unknown, the line comes back unchanged, whatever codes
   * follow it.
   */
  lemma FirstMatchDecides(line: string, p: int, q: int)
    requires MatchSpan(line, p, q)
    requires forall p', q' | p' < p :: !MatchSpan(line, p', q')
    ensures line[p + 1..q] in InfoUrl ==>
              AddInfoUrls(line) == RStrip(line) + MoreInfo + InfoUrl[line[p + 1..q]] + "\n"
    ensures line[p + 1..q] !in InfoUrl ==> AddInfoUrls(line) == line
  {
    assert FirstMatch(line, p, q);
  }

  /** The search from the start finds the first match, with its end. */
  lemma SearchFindsFirst(line: string, p: int, q: int)
    requires MatchSpan(line, p, q)
    requires forall p', q' | p' < p :: !MatchSpan(line, p', q')
    ensures SearchFrom(line, 0) == Some(Match(p, q))
  {
    var m := SearchFrom(line, 0);
    assert m.Some?;
    assert m.value.start == p;
    MatchEndUnique(line, p, q);
    MatchEndUnique(line, p, m.value.end);
  }

  /** The extracted code is one upper-case letter followed by one or more digits. */
  lemma CodeShape(line: string)
    ensures FirstCode(line).Some? ==>
              var c := FirstCode(line).value;
              |c| >= 2 && IsUpper(c[0]) && forall k | 1 <= k < |c| :: IsDigit(c[k])
  {
    var m := SearchFrom(line, 0);
    if m.Some? {
      var c := line[m.value.start + 1..m.value.end];
      assert forall k | 1 <= k < |c| :: c[k] == line[m.value.start + 1 + k];
    }
  }

  /** An upper-case letter followed by four digits. */
  predicate FiveCharCode(c: string) {
    |c| == 5 && IsUpper(c[0]) && IsDigit(c[1]) && IsDigit(c[2]) && IsDigit(c[3]) && IsDigit(c[4])
  }

  /**
   * The keys of the table as a set display. This exists only to unfold the
   * table's keys once, in TableShape, and states nothing beyond the table.
   */
  lemma TableCodes()
    ensures InfoUrl.Keys == {"W8161", "W8301", "W8113", "W8120", "C8101", "E0602",
                             "E1101", "W0611", "W0612", "W0107", "R1705"}
  {
  }

  /** Every code of the table is an upper-case letter followed by four digits. */
  lemma TableShape()
    ensures forall c | c in InfoUrl :: FiveCharCode(c)
  {
    TableCodes();
    assert FiveCharCode("W8161") && FiveCharCode("W8301") && FiveCharCode("W8113") && FiveCharCode("W8120");
    assert FiveCharCode("C8101") && FiveCharCode("E0602") && FiveCharCode("E1101") && FiveCharCode("W0611");
    assert FiveCharCode("W0612") && FiveCharCode("W0107") && FiveCharCode("R1705");
  }

  /** The example line loses its trailing blank and newline, and nothing else. */
  lemma ExampleStrips()
    ensures RStrip("[W0611(x)] \n") == "[W0611(x)]"
  {
    var known := "[W0611(x)] \n";
    var spaced := known[..|known| - 1];
    var bare := spaced[..|spaced| - 1];
    assert IsSpace(known[|known| - 1]) && RStrip(known) == RStrip(spaced);
    assert IsSpace(spaced[|spaced| - 1]) && RStrip(spaced) == RStrip(bare);
    assert !IsSpace(bare[|bare| - 1]) && RStrip(bare) == bare;
    assert bare == "[W0611(x)]";
  }

  /** The example line's first match spans its code `W0611`. */
  lemma ExampleMatches()
    ensures MatchSpan("[W0611(x)] \n", 0, 6) && "[W0611(x)] \n"[1..6] == "W0611"
  {
    var known := "[W0611(x)] \n";
    assert known[1..6] == "W0611";
  }

  /** A known first code gains its URL after the stripped line. */
  lemma ExampleKnown()
    ensures AddInfoUrls("[W0611(x)] \n") == "[W0611(x)]" + MoreInfo + InfoUrl["W0611"] + "\n"
  {
    var line := "[W0611(x)] \n";
    ExampleMatches();
    assert "W0611" in InfoUrl;
    FirstMatchDecides(line, 0, 6);
    ExampleStrips();
  }

  /** A first code that is not five characters long is not in the table, so the line is kept. */
  lemma ShortFirstCodeUnchanged(line: string, p: int, q: int)
    requires MatchSpan(line, p, q)
    requires forall p', q' | p' < p :: !MatchSpan(line, p', q')
    requires |line[p + 1..q]| != 5
    ensures AddInfoUrls(line) == line
  {
    TableShape();
    FirstMatchDecides(line, p, q);
  }

  /** An unknown first code leaves the line alone, although a known code follows it. */
  lemma ExampleUnknownFirst()
    ensures AddInfoUrls("[X1(a)] [W0611(b)]\n") == "[X1(a)] [W0611(b)]\n"
  {
    var unknown := "[X1(a)] [W0611(b)]\n";
    assert MatchSpan(unknown, 0, 3);
    ShortFirstCodeUnchanged(unknown, 0, 3);
  }

  /**
   * A digit of another script counts as `\d` too: the first match of this
   * line is the unknown code "X" + ARABIC-INDIC DIGIT ONE, so the known
   * code after it gains nothing.
   */
  lemma ExampleNonAsciiDigitFirst()
    ensures AddInfoUrls("[X\U{0661}(a)] [W0611(b)]\n") == "[X\U{0661}(a)] [W0611(b)]\n"
  {
    var line := "[X\U{0661}(a)] [W0611(b)]\n";
    assert IsDigit(line[2]);
    assert MatchSpan(line, 0, 3);
    ShortFirstCodeUnchanged(line, 0, 3);
  }
}
