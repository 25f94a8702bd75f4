/** The text helpers of string_utils.py, plus the pieces of Python's str
    methods (isspace, rstrip, strip, lower, join) that the rest of the model uses. */
module StringUtils {

  /** Python's str.isspace for one character: the 29 code points Python treats
      as whitespace. */
  predicate IsSpace(c: char) {
    || c == ' '
    || ('\t' <= c <= '\r')
    || ('\U{1c}' <= c <= '\U{1f}')
    || c == '\U{85}' || c == '\U{a0}' || c == '\U{1680}'
    || ('\U{2000}' <= c <= '\U{200a}')
    || c == '\U{2028}' || c == '\U{2029}' || c == '\U{202f}' || c == '\U{205f}' || c == '\U{3000}'
  }

  /** str.rstrip(): the longest prefix that does not end in whitespace. */
  function RStrip(s: string): (r: string)
    ensures r <= s
    ensures r == [] || !IsSpace(r[|r| - 1])
    ensures forall i | |r| <= i < |s| :: IsSpace(s[i])
    decreases |s|
  {
    if s == [] || !IsSpace(s[|s| - 1]) then s else RStrip(s[..|s| - 1])
  }

  /** str.lstrip(): the longest suffix that does not start with whitespace. */
  function LStrip(s: string): (r: string)
    ensures |r| <= |s| && r == s[|s| - |r|..]
    ensures r == [] || !IsSpace(r[0])
    ensures forall i | 0 <= i < |s| - |r| :: IsSpace(s[i])
    decreases |s|
  {
    if s == [] || !IsSpace(s[0]) then s else LStrip(s[1..])
  }

  /** str.strip(): whitespace removed at both ends. */
  function Strip(s: string): (r: string)
    ensures r == [] || (!IsSpace(r[0]) && !IsSpace(r[|r| - 1]))
  {
    LStrip(RStrip(s))
  }

  predicate EndsWith(s: string, suffix: string) {
    |suffix| <= |s| && s[|s| - |suffix|..] == suffix
  }

  /** The characters before which end_string_with_period would insert the period. */
  const SPECIAL_CHARS: seq<char> := ['\n', '\t', '\r']

  /** The for/else of end_string_with_period over the remaining special characters:
      the first one the text ends with gets a period inserted before it; when none
      matches, the else clause appends a period unless one is already there. */
  function PeriodForSpecialChars(text: string, specials: seq<char>): string {
    if specials == [] then
      if EndsWith(text, ".") then text else text + "."
    else if EndsWith(text, [specials[0]]) then
      text[..|text| - 1] + ['.', specials[0]]
    else
      PeriodForSpecialChars(text, specials[1..])
  }

  /** end_string_with_period */
  function EndStringWithPeriod(text: string): string {
    PeriodForSpecialChars(RStrip(text), SPECIAL_CHARS)
  }

  /** The special-character branch is dead: rstrip has already removed every
      '\n', '\t' and '\r' at the end, so the result is the right-stripped text,
      with a period appended when it does not already end in one ('!' and '?'
      endings get one too). */
  lemma EndStringWithPeriodCases(text: string)
    ensures var t := RStrip(text);
      && (EndsWith(t, ".") ==> EndStringWithPeriod(text) == t)
      && (!EndsWith(t, ".") ==> EndStringWithPeriod(text) == t + ".")
  {
    var t := RStrip(text);
    assert forall c | c in SPECIAL_CHARS :: IsSpace(c);
    assert !EndsWith(t, ['\n']) && !EndsWith(t, ['\t']) && !EndsWith(t, ['\r']);
    assert SPECIAL_CHARS[1..] == ['\t', '\r'] && SPECIAL_CHARS[1..][1..] == ['\r'];
    assert PeriodForSpecialChars(t, SPECIAL_CHARS) == PeriodForSpecialChars(t, ['\t', '\r']);
    assert PeriodForSpecialChars(t, ['\t', '\r']) == PeriodForSpecialChars(t, ['\r']);
    assert ['\r'][1..] == [];
    assert PeriodForSpecialChars(t, ['\r']) == PeriodForSpecialChars(t, []);
  }

  /** The result always ends in a period, the empty string included, and the
      right-stripped text is a prefix of it. */
  lemma EndStringWithPeriodEndsInPeriod(text: string)
    ensures var r := EndStringWithPeriod(text);
      && |r| > 0 && r[|r| - 1] == '.'
      && RStrip(text) <= r
  {
    EndStringWithPeriodCases(text);
  }

  lemma EndStringWithPeriodOfEmpty()
    ensures EndStringWithPeriod("") == "."
  {
    EndStringWithPeriodCases("");
  }

  /** Applying end_string_with_period twice changes nothing more. */
  lemma EndStringWithPeriodIdempotent(text: string)
    ensures EndStringWithPeriod(EndStringWithPeriod(text)) == EndStringWithPeriod(text)
  {
    var r := EndStringWithPeriod(text);
    EndStringWithPeriodEndsInPeriod(text);
    assert RStrip(r) == r;
    EndStringWithPeriodCases(r);
  }

  /** str.lower() on one character (ASCII letters only in this model). */
  function LowerChar(c: char): char {
    if 'A' <= c <= 'Z' then (c as int + 32) as char else c
  }

  predicate IsUpper(c: char) {
    'A' <= c <= 'Z'
  }

  function Lower(s: string): (r: string)
    ensures |r| == |s|
  {
    seq(|s|, i requires 0 <= i < |s| => LowerChar(s[i]))
  }

  /** replace_spaces_with_underscores: lower-case the text, then every ' ' becomes '_'. */
  function ReplaceSpacesWithUnderscores(text: string): string {
    var lowered := Lower(text);
    seq(|lowered|, i requires 0 <= i < |lowered| => if lowered[i] == ' ' then '_' else lowered[i])
  }

  /** The result has the input's length and contains neither spaces nor
      upper-case letters; where the input had neither, it is the input. */
  lemma ReplaceSpacesWithUnderscoresShape(text: string)
    ensures var r := ReplaceSpacesWithUnderscores(text);
      && |r| == |text|
      && (forall i | 0 <= i < |r| :: r[i] != ' ' && !IsUpper(r[i]))
      && ((forall i | 0 <= i < |text| :: text[i] != ' ' && !IsUpper(text[i])) ==> r == text)
  {
  }

  lemma ReplaceSpacesWithUnderscoresIdempotent(text: string)
    ensures var r := ReplaceSpacesWithUnderscores(text);
      ReplaceSpacesWithUnderscores(r) == r
  {
    ReplaceSpacesWithUnderscoresShape(text);
    ReplaceSpacesWithUnderscoresShape(ReplaceSpacesWithUnderscores(text));
  }

  /** sep.join(parts) */
  function Join(parts: seq<string>, sep: string): string
  {
    if parts == [] then ""
    else if |parts| == 1 then parts[0]
    else Join(parts[..|parts| - 1], sep) + sep + parts[|parts| - 1]
  }

  /** str(n) for a natural number: its decimal digits, without leading zeros. */
  function NatToString(n: nat): (r: string)
    ensures |r| > 0
    ensures forall i | 0 <= i < |r| :: '0' <= r[i] <= '9'
  {
    var digit: char := ('0' as int + n % 10) as char;
    if n < 10 then [digit] else NatToString(n / 10) + [digit]
  }
}
