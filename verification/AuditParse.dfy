/** The line parser for the file of audit exceptions. */
module AuditParse {
  import opened Wrappers
  import opened AuditText

  /** The source's dictionaries with string keys and values. */
  type Record = map<string, string>

  type Pair = (string, string)

  function FirstColon(s: string): (k: nat)
    ensures k <= |s| && (k < |s| ==> s[k] == ':') && forall j | 0 <= j < k :: s[j] != ':'
  {
    if s == "" || s[0] == ':' then 0 else 1 + FirstColon(s[1..])
  }

  predicate Quoted(s: string, quote: char) {
    s != "" && s[0] == quote && s[|s| - 1] == quote
  }

  /** Takes off one pair of quotes. A single quote character both starts and ends with itself: nothing is left. */
  function Unquote(s: string): string {
    if Quoted(s, '"') || Quoted(s, '\'') then (if |s| == 1 then "" else s[1..|s| - 1]) else s
  }

  /** `split_kv`; None is the ValueError for a line without a colon. */
  function SplitKv(line: string): Option<Pair> {
    var k := FirstColon(line);
    if k == |line| then None else Some((Strip(line[..k]), Unquote(Strip(line[k + 1..]))))
  }

  datatype ParseState = ParseState(current: Option<Record>, exceptions: seq<Record>)

  /** `current` is appended unless it is None or an empty dictionary. */
  function Flush(st: ParseState): seq<Record> {
    if st.current.Some? && st.current.value != map[] then st.exceptions + [st.current.value] else st.exceptions
  }

  predicate Skipped(line: string) {
    line == "" || StartsWith(line, "#") || StartsWith(line, "version:") || StartsWith(line, "exceptions:")
  }

  /** What one line does. */
  function ParseLine(st: ParseState, raw: string): Option<ParseState> {
    var line := Strip(raw);
    if Skipped(line) then Some(st)
    else if StartsWith(line, "- ") then
      var rest := Strip(line[2..]);
      if rest == "" then Some(ParseState(Some(map[]), Flush(st)))
      else
        match SplitKv(rest)
        case None => None
        case Some(e) => Some(ParseState(Some(map[e.0 := e.1]), Flush(st)))
    else
      match st.current
      case None => Some(st)
      case Some(record) =>
        match SplitKv(line)
        case None => Some(st)
        case Some(e) => Some(st.(current := Some(record[e.0 := e.1])))
  }

  function ParseFrom(st: ParseState, lines: seq<string>): Option<ParseState>
    decreases |lines|
  {
    if lines == [] then Some(st)
    else
      match ParseLine(st, lines[0])
      case None => None
      case Some(next) => ParseFrom(next, lines[1..])
  }

  const START: ParseState := ParseState(None, [])

  /** The records of a file; None if a line stops the tool. */
  function Parsed(lines: seq<string>): Option<seq<Record>> {
    ParsedFrom(START, lines)
  }

  function ParsedFrom(st: ParseState, lines: seq<string>): Option<seq<Record>> {
    match ParseFrom(st, lines)
    case None => None
    case Some(end) => Some(Flush(end))
  }

  /** `parse_exceptions` on the lines of the file. */
  method ParseExceptions(lines: seq<string>) returns (r: Option<seq<Record>>)
    ensures r == Parsed(lines)
  {
    var exceptions: seq<Record> := [];
    var current: Option<Record> := None;
    assert lines[0..] == lines;
    for i := 0 to |lines|
      invariant ParseFrom(START, lines) == ParseFrom(ParseState(current, exceptions), lines[i..])
    {
      assert lines[i..][0] == lines[i] && lines[i..][1..] == lines[i + 1..];
      var line := Strip(lines[i]);
      if line == "" || StartsWith(line, "#") {
        continue;
      }
      if StartsWith(line, "version:") || StartsWith(line, "exceptions:") {
        continue;
      }
      if StartsWith(line, "- ") {
        if current.Some? && current.value != map[] {
          exceptions := exceptions + [current.value];
        }
        current := Some(map[]);
        line := Strip(line[2..]);
        if line != "" {
          var kv := SplitKv(line);
          if kv.None? {
            return None;
          }
          current := Some(map[kv.value.0 := kv.value.1]);
        }
        continue;
      }
      if current.Some? && ':' in line {
        var kv := SplitKv(line);
        current := Some(current.value[kv.value.0 := kv.value.1]);
      }
    }
    if current.Some? && current.value != map[] {
      exceptions := exceptions + [current.value];
    }
    r := Some(exceptions);
  }

  /** Blank lines, comments and the two headers do nothing. */
  lemma HeadersDoNothing(st: ParseState, raw: string)
    requires Strip(raw) == "" || "#" <= Strip(raw) || "version:" <= Strip(raw) || "exceptions:" <= Strip(raw)
    ensures ParseLine(st, raw) == Some(st)
  {
  }

  // ---- Which files stop the tool, and which records come out ----

  /** A list item whose text has no colon. */
  predicate StopsParser(raw: string) {
    var line := Strip(raw);
    StartsWith(line, "- ") && ':' !in line
  }

  /** A stripped line that starts with a dash and a space goes on after them. */
  lemma DashLineGoesOn(raw: string)
    requires StartsWith(Strip(raw), "- ")
    ensures Strip(Strip(raw)[2..]) != "" && (':' in Strip(Strip(raw)[2..]) <==> ':' in Strip(raw))
    ensures !Skipped(Strip(raw))
  {
    var line := Strip(raw);
    var a, b := StripSplits(raw);
    assert !IsSpace(line[|line| - 1]) && IsSpace(line[1]) && line[0] == '-';
    var tail := line[2..];
    assert tail != "" && tail[|tail| - 1] == line[|line| - 1];
    var c := StripFront(tail);
    NoColonInFront(tail[..c], tail[c..]);
    assert tail == tail[..c] + tail[c..];
    NoColonInFront("- ", tail);
    assert line == "- " + tail;
  }

  lemma NoColonInFront(a: string, b: string)
    requires forall k | 0 <= k < |a| :: a[k] == '-' || IsSpace(a[k])
    ensures ':' in a + b <==> ':' in b
  {
    assert forall k | 0 <= k < |b| :: b[k] == (a + b)[|a| + k];
    assert forall k | 0 <= k < |a| :: a[k] == (a + b)[k] && a[k] != ':';
  }

  lemma {:induction false} ParseFromStops(st: ParseState, lines: seq<string>)
    ensures ParseFrom(st, lines).None? <==> exists k | 0 <= k < |lines| :: StopsParser(lines[k])
    decreases |lines|
  {
    if lines != [] {
      var next := ParseLine(st, lines[0]);
      LineStops(st, lines[0]);
      if next.Some? {
        ParseFromStops(next.value, lines[1..]);
        assert forall k | 0 <= k < |lines| - 1 :: lines[1..][k] == lines[k + 1];
        assert forall k | 0 < k < |lines| :: lines[k] == lines[1..][k - 1];
      }
    }
  }

  lemma LineStops(st: ParseState, raw: string)
    ensures ParseLine(st, raw).None? <==> StopsParser(raw)
  {
    if StartsWith(Strip(raw), "- ") {
      DashLineGoesOn(raw);
      var rest := Strip(Strip(raw)[2..]);
      assert FirstColon(rest) == |rest| <==> ':' !in rest;
    }
  }

  /** Parsing fails if and only if some list item has no colon. */
  lemma ParserStopsIff(lines: seq<string>)
    ensures Parsed(lines).None? <==> exists k | 0 <= k < |lines| :: StopsParser(lines[k])
  {
    ParseFromStops(START, lines);
  }

  ghost predicate NoEmptyRecord(st: ParseState) {
    (st.current.Some? ==> st.current.value != map[]) && forall k | 0 <= k < |st.exceptions| :: st.exceptions[k] != map[]
  }

  lemma UpdatedNonEmpty(record: Record, e: Pair)
    ensures record[e.0 := e.1] != map[]
  {
    assert e.0 in record[e.0 := e.1];
  }

  /** The records there are, with the one under way. */
  function CountOf(st: ParseState): nat {
    |st.exceptions| + if st.current.Some? then 1 else 0
  }

  predicate IsItem(raw: string) {
    StartsWith(Strip(raw), "- ")
  }

  lemma LineKeepsNonEmpty(st: ParseState, raw: string)
    requires NoEmptyRecord(st) && ParseLine(st, raw).Some?
    ensures NoEmptyRecord(ParseLine(st, raw).value)
    ensures CountOf(ParseLine(st, raw).value) == CountOf(st) + if IsItem(raw) then 1 else 0
  {
    var line := Strip(raw);
    if IsItem(raw) {
      DashLineGoesOn(raw);
      UpdatedNonEmpty(map[], SplitKv(Strip(line[2..])).value);
    } else if st.current.Some? && SplitKv(line).Some? {
      UpdatedNonEmpty(st.current.value, SplitKv(line).value);
    }
  }

  lemma {:induction false} ParseFromKeepsNonEmpty(st: ParseState, lines: seq<string>)
    requires NoEmptyRecord(st) && ParseFrom(st, lines).Some?
    ensures NoEmptyRecord(ParseFrom(st, lines).value)
    ensures CountOf(ParseFrom(st, lines).value) == CountOf(st) + Items(lines)
    decreases |lines|
  {
    if lines != [] {
      LineKeepsNonEmpty(st, lines[0]);
      ParseFromKeepsNonEmpty(ParseLine(st, lines[0]).value, lines[1..]);
    }
  }

  /** The number of list items. */
  function Items(lines: seq<string>): nat {
    if lines == [] then 0 else (if IsItem(lines[0]) then 1 else 0) + Items(lines[1..])
  }

  /** Every list item becomes one record, and none of them is empty: the guards of the source against an empty
      `current` never drop anything. */
  lemma OneRecordPerItem(lines: seq<string>)
    requires Parsed(lines).Some?
    ensures |Parsed(lines).value| == Items(lines)
    ensures forall k | 0 <= k < |Parsed(lines).value| :: Parsed(lines).value[k] != map[]
  {
    ParseFromKeepsNonEmpty(START, lines);
  }

  // ---- Lines that do not matter ----

  lemma {:induction false} ParseFromConcat(st: ParseState, a: seq<string>, b: seq<string>)
    ensures ParseFrom(st, a + b) ==
            match ParseFrom(st, a) case None => None case Some(mid) => ParseFrom(mid, b)
    decreases |a|
  {
    if a == [] {
      assert a + b == b;
    } else {
      assert (a + b)[0] == a[0] && (a + b)[1..] == a[1..] + b;
      if ParseLine(st, a[0]).Some? {
        ParseFromConcat(ParseLine(st, a[0]).value, a[1..], b);
      }
    }
  }

  lemma ParseOne(st: ParseState, raw: string)
    ensures ParseFrom(st, [raw]) == ParseLine(st, raw)
  {
    assert [raw][1..] == [];
  }

  /** Blank lines, comments and the two header lines can be put in anywhere. */
  lemma SkippedLinesVanish(a: seq<string>, raw: string, b: seq<string>)
    requires Skipped(Strip(raw))
    ensures Parsed(a + [raw] + b) == Parsed(a + b)
  {
    ParseFromConcat(START, a + [raw], b);
    ParseFromConcat(START, a, [raw]);
    ParseFromConcat(START, a, b);
    if ParseFrom(START, a).Some? {
      ParseOne(ParseFrom(START, a).value, raw);
    }
  }

  // ---- No value has a newline in it ----

  ghost predicate OneLineValues(record: Record) {
    forall field | field in record :: OneLine(record[field])
  }

  ghost predicate AllOneLine(st: ParseState) {
    (st.current.Some? ==> OneLineValues(st.current.value)) && forall r | r in st.exceptions :: OneLineValues(r)
  }

  lemma SplitOneLine(line: string)
    requires OneLine(line) && SplitKv(line).Some?
    ensures OneLine(SplitKv(line).value.1)
  {
    var k := FirstColon(line);
    OneLineSlice(line, k + 1, |line|);
    assert line[k + 1..] == line[k + 1..|line|];
    StripOneLine(line[k + 1..]);
    var value := Strip(line[k + 1..]);
    if |value| >= 2 {
      OneLineSlice(value, 1, |value| - 1);
    }
  }

  lemma LineKeepsOneLine(st: ParseState, raw: string)
    requires AllOneLine(st) && IsLine(raw) && ParseLine(st, raw).Some?
    ensures AllOneLine(ParseLine(st, raw).value)
  {
    var line := Strip(raw);
    StrippedLine(raw);
    if StartsWith(line, "- ") {
      OneLineSlice(line, 2, |line|);
      assert line[2..] == line[2..|line|];
      StripOneLine(line[2..]);
      if SplitKv(Strip(line[2..])).Some? {
        SplitOneLine(Strip(line[2..]));
      }
    } else if SplitKv(line).Some? {
      SplitOneLine(line);
    }
  }

  lemma {:induction false} ParseFromKeepsOneLine(st: ParseState, lines: seq<string>)
    requires AllOneLine(st) && ParseFrom(st, lines).Some? && forall k | 0 <= k < |lines| :: IsLine(lines[k])
    ensures AllOneLine(ParseFrom(st, lines).value)
    decreases |lines|
  {
    if lines != [] {
      LineKeepsOneLine(st, lines[0]);
      ParseFromKeepsOneLine(ParseLine(st, lines[0]).value, lines[1..]);
    }
  }

  /** Whatever is in a file, no value of a record has a newline in it. */
  lemma ValuesAreLines(text: string)
    requires Parsed(Lines(text)).Some?
    ensures forall exc, field | exc in Parsed(Lines(text)).value && field in exc :: OneLine(exc[field])
  {
    LinesAreLines(text);
    ParseFromKeepsOneLine(START, Lines(text));
    forall exc | exc in Parsed(Lines(text)).value
      ensures OneLineValues(exc)
    {
    }
  }
}
