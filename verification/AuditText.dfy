/** The string functions of Python that the audit tool uses. */
module AuditText {
  /** `str.isspace` for one character. */
  predicate IsSpace(c: char) {
    || '\U{9}' <= c <= '\U{D}' || '\U{1C}' <= c <= '\U{20}' || c == '\U{85}' || c == '\U{A0}' || c == '\U{1680}'
    || '\U{2000}' <= c <= '\U{200A}' || c == '\U{2028}' || c == '\U{2029}' || c == '\U{202F}' || c == '\U{205F}'
    || c == '\U{3000}'
  }

  /** The code points of these characters. */
  lemma SpaceCodes(c: char)
    ensures IsSpace(c) <==>
            var n := c as int;
            || 9 <= n <= 13 || 28 <= n <= 32 || n == 133 || n == 160 || n == 5760 || 8192 <= n <= 8202 || n == 8232
            || n == 8233 || n == 8239 || n == 8287 || n == 12288
  {
  }

  predicate AllSpaces(s: string) {
    forall k | 0 <= k < |s| :: IsSpace(s[k])
  }

  function TrimStart(s: string): string {
    if s != "" && IsSpace(s[0]) then TrimStart(s[1..]) else s
  }

  function TrimEnd(s: string): string {
    if s != "" && IsSpace(s[|s| - 1]) then TrimEnd(s[..|s| - 1]) else s
  }

  function Strip(s: string): string {
    TrimEnd(TrimStart(s))
  }

  /** Neither end is a space. */
  predicate Trimmed(s: string) {
    s == "" || (!IsSpace(s[0]) && !IsSpace(s[|s| - 1]))
  }

  lemma {:induction false} TrimStartSplits(s: string) returns (k: nat)
    ensures k <= |s| && AllSpaces(s[..k]) && TrimStart(s) == s[k..]
    ensures TrimStart(s) == "" || !IsSpace(TrimStart(s)[0])
  {
    if s != "" && IsSpace(s[0]) {
      k := TrimStartSplits(s[1..]);
      assert s[..k + 1] == [s[0]] + s[1..][..k] && s[k + 1..] == s[1..][k..];
      k := k + 1;
    } else {
      k := 0;
    }
  }

  lemma {:induction false} TrimEndSplits(s: string) returns (k: nat)
    ensures k <= |s| && AllSpaces(s[k..]) && TrimEnd(s) == s[..k]
    ensures TrimEnd(s) == "" || !IsSpace(TrimEnd(s)[k - 1])
  {
    if s != "" && IsSpace(s[|s| - 1]) {
      k := TrimEndSplits(s[..|s| - 1]);
      assert s[k..] == s[..|s| - 1][k..] + [s[|s| - 1]];
    } else {
      k := |s|;
    }
  }

  /** `strip` takes away spaces at both ends, and nothing else. */
  lemma StripSplits(s: string) returns (a: nat, b: nat)
    ensures a <= b <= |s| && AllSpaces(s[..a]) && AllSpaces(s[b..]) && Strip(s) == s[a..b] && Trimmed(Strip(s))
  {
    a := TrimStartSplits(s);
    var k := TrimEndSplits(s[a..]);
    b := a + k;
    assert s[a..][..k] == s[a..b] && s[b..] == s[a..][k..];
  }

  /** What is trimmed survives `strip`, whatever spaces surround it. */
  lemma {:induction false} StripPadded(before: string, s: string, after: string)
    requires AllSpaces(before) && AllSpaces(after) && Trimmed(s) && s != ""
    ensures Strip(before + s + after) == s
  {
    TrimStartPadded(before, s + after);
    assert before + s + after == before + (s + after);
    TrimEndPadded(s, after);
  }

  lemma {:induction false} TrimStartPadded(before: string, s: string)
    requires AllSpaces(before) && s != "" && !IsSpace(s[0])
    ensures TrimStart(before + s) == s
  {
    if before == "" {
      assert before + s == s;
    } else {
      assert (before + s)[1..] == before[1..] + s;
      TrimStartPadded(before[1..], s);
    }
  }

  lemma {:induction false} TrimEndPadded(s: string, after: string)
    requires AllSpaces(after) && s != "" && !IsSpace(s[|s| - 1])
    ensures TrimEnd(s + after) == s
  {
    if after == "" {
      assert s + after == s;
    } else {
      assert (s + after)[..|s + after| - 1] == s + after[..|after| - 1];
      TrimEndPadded(s, after[..|after| - 1]);
    }
  }

  /** `strip` on a text that ends in something else than a space only takes away spaces in front. */
  lemma {:induction false} StripFront(s: string) returns (a: nat)
    requires s != "" && !IsSpace(s[|s| - 1])
    ensures a < |s| && AllSpaces(s[..a]) && Strip(s) == s[a..]
  {
    if IsSpace(s[0]) {
      a := StripFront(s[1..]);
      assert s[..a + 1] == [s[0]] + s[1..][..a] && s[a + 1..] == s[1..][a..];
      a := a + 1;
    } else {
      a := 0;
    }
  }

  predicate StartsWith(s: string, prefix: string) {
    prefix <= s
  }

  // ---- Lines of a text file ----

  predicate IsNewline(c: char) {
    c == '\n' || c == '\r'
  }

  predicate OneLine(s: string) {
    forall k | 0 <= k < |s| :: !IsNewline(s[k])
  }

  /** The length of the first line, without its end. */
  function LineLength(text: string): (k: nat)
    ensures k <= |text| && OneLine(text[..k]) && (k < |text| ==> IsNewline(text[k]))
  {
    if text == "" || IsNewline(text[0]) then 0
    else
      var k := 1 + LineLength(text[1..]);
      assert text[..k] == [text[0]] + text[1..][..k - 1];
      k
  }

  /** The lines that a text file in universal newlines mode yields: `\r\n` and `\r` are read as `\n`. */
  function Lines(text: string): seq<string>
    decreases |text|
  {
    if text == "" then []
    else
      var k := LineLength(text);
      if k == |text| then [text]
      else
        var end := if text[k] == '\r' && k + 1 < |text| && text[k + 1] == '\n' then k + 2 else k + 1;
        [text[..k] + "\n"] + Lines(text[end..])
  }

  lemma {:induction false} LineLengthOf(line: string, rest: string)
    requires OneLine(line)
    ensures LineLength(line + ("\n" + rest)) == |line|
  {
    var text := line + ("\n" + rest);
    if line != "" {
      assert text[0] == line[0] && text[1..] == line[1..] + ("\n" + rest);
      LineLengthOf(line[1..], rest);
    }
  }

  lemma LinesStep(line: string, rest: string)
    requires OneLine(line)
    ensures Lines(line + ("\n" + rest)) == [line + "\n"] + Lines(rest)
  {
    var text := line + ("\n" + rest);
    LineLengthOf(line, rest);
    assert text[|line|] == '\n' && text[..|line|] == line && text[|line| + 1..] == rest;
  }

  lemma {:induction false} LineLengthBefore(line: string, rest: string)
    requires OneLine(line) && (rest != "" ==> IsNewline(rest[0]))
    ensures LineLength(line + rest) == |line|
  {
    if line == "" {
      assert line + rest == rest;
    } else {
      assert (line + rest)[0] == line[0] && (line + rest)[1..] == line[1..] + rest;
      LineLengthBefore(line[1..], rest);
    }
  }

  /** A line may end in a carriage return, with or without a newline after it, and the last line in nothing. */
  lemma LineEnds(line: string, rest: string)
    requires OneLine(line)
    ensures Lines(line + ("\r\n" + rest)) == [line + "\n"] + Lines(rest)
    ensures rest == "" || rest[0] != '\n' ==> Lines(line + ("\r" + rest)) == [line + "\n"] + Lines(rest)
    ensures Lines(line) == if line == "" then [] else [line]
  {
    var both, one := line + ("\r\n" + rest), line + ("\r" + rest);
    LineLengthBefore(line, "\r\n" + rest);
    LineLengthBefore(line, "\r" + rest);
    LineLengthBefore(line, "");
    assert line + "" == line;
    assert both[..|line|] == line && both[|line|] == '\r' && both[|line| + 1] == '\n' && both[|line| + 2..] == rest;
    assert one[..|line|] == line && one[|line|] == '\r' && one[|line| + 1..] == rest;
    assert rest != "" ==> one[|line| + 1] == rest[0];
  }

  function FileText(lines: seq<string>): string {
    if lines == [] then "" else lines[0] + ("\n" + FileText(lines[1..]))
  }

  function Ended(lines: seq<string>): seq<string> {
    seq(|lines|, k requires 0 <= k < |lines| => lines[k] + "\n")
  }

  /** Lines that are written one after the other are read back one after the other. */
  lemma {:induction false} LinesOfFileText(lines: seq<string>)
    requires forall k | 0 <= k < |lines| :: OneLine(lines[k])
    ensures Lines(FileText(lines)) == Ended(lines)
  {
    if lines != [] {
      LinesOfFileText(lines[1..]);
      LinesStep(lines[0], FileText(lines[1..]));
      EndedFirst(lines);
    }
  }

  lemma EndedFirst(lines: seq<string>)
    requires lines != []
    ensures Ended(lines) == [lines[0] + "\n"] + Ended(lines[1..])
  {
  }

  lemma OneLineSlice(s: string, a: nat, b: nat)
    requires a <= b <= |s| && OneLine(s)
    ensures OneLine(s[a..b])
  {
  }

  /** A line of a file: it may end in a newline, and has none elsewhere. */
  predicate IsLine(line: string) {
    OneLine(if line != "" && line[|line| - 1] == '\n' then line[..|line| - 1] else line)
  }

  lemma {:induction false} LinesAreLines(text: string)
    ensures forall k | 0 <= k < |Lines(text)| :: IsLine(Lines(text)[k])
    decreases |text|
  {
    if text != "" {
      var k := LineLength(text);
      if k == |text| {
        assert text[..k] == text;
      } else {
        var end := if text[k] == '\r' && k + 1 < |text| && text[k + 1] == '\n' then k + 2 else k + 1;
        LinesAreLines(text[end..]);
        var line := text[..k] + "\n";
        assert line[|line| - 1] == '\n' && line[..|line| - 1] == text[..k];
      }
    }
  }

  /** What is left of a line by `strip` has no newline in it. */
  lemma StrippedLine(line: string)
    requires IsLine(line)
    ensures OneLine(Strip(line))
  {
    var a, b := StripSplits(line);
    forall k | 0 <= k < |Strip(line)|
      ensures !IsNewline(Strip(line)[k])
    {
      assert Strip(line)[k] == line[a + k];
    }
  }

  lemma StripOneLine(s: string)
    requires OneLine(s)
    ensures OneLine(Strip(s))
  {
    var a, b := StripSplits(s);
  }
}
