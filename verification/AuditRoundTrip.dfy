/** What is written as a list of records is read back as the same list. */
module AuditRoundTrip {
  import opened Wrappers
  import opened AuditText
  import opened AuditParse

  datatype Style = Plain | SingleQuoted | DoubleQuoted

  /** A key and its value, how the value is written, and the spaces in front of the line. */
  datatype Entry = Entry(indent: string, key: string, value: string, style: Style)

  function Shown(value: string, style: Style): string {
    match style
    case Plain => value
    case SingleQuoted => "'" + value + "'"
    case DoubleQuoted => "\"" + value + "\""
  }

  /** `key: value` */
  function EntryText(e: Entry): string {
    e.key + (":" + (" " + Shown(e.value, e.style)))
  }

  /** The lines of one record; the first one is the list item. */
  function RecordLines(es: seq<Entry>): (r: seq<string>)
    ensures |r| == |es|
  {
    seq(|es|, k requires 0 <= k < |es| =>
      es[k].indent + if k == 0 then "- " + EntryText(es[k]) else EntryText(es[k]))
  }

  function AllLines(rs: seq<seq<Entry>>): seq<string> {
    if rs == [] then [] else RecordLines(rs[0]) + AllLines(rs[1..])
  }

  /** The dictionary of these entries; a repeated key keeps its last value. */
  function RecordOf(es: seq<Entry>): Record {
    if es == [] then map[] else RecordOf(es[..|es| - 1])[es[|es| - 1].key := es[|es| - 1].value]
  }

  function RecordsOf(rs: seq<seq<Entry>>): seq<Record> {
    seq(|rs|, k requires 0 <= k < |rs| => RecordOf(rs[k]))
  }

  /** A key that can stand on a line of its own. */
  predicate PlainKey(key: string) {
    !StartsWith(key, "#") && !StartsWith(key, "- ") && key != "version" && key != "exceptions"
  }

  /** A quoted value is any line; a plain one must not be empty, have outer spaces or look quoted. */
  predicate ValueOk(value: string, style: Style) {
    && OneLine(value)
    && (style.Plain? ==> value != "" && Trimmed(value) && !Quoted(value, '"') && !Quoted(value, '\''))
  }

  predicate EntryOk(e: Entry) {
    && AllSpaces(e.indent) && OneLine(e.indent)
    && Trimmed(e.key) && ':' !in e.key && OneLine(e.key)
    && ValueOk(e.value, e.style)
  }

  /** The record can be written: keys are trimmed and free of colons, and keys after the first are not taken for
      something else. */
  predicate Printable(es: seq<Entry>) {
    es != [] && (forall k | 0 <= k < |es| :: EntryOk(es[k])) && forall k | 1 <= k < |es| :: PlainKey(es[k].key)
  }

  // ---- One entry ----

  lemma {:induction false} FirstColonOf(before: string, after: string)
    requires ':' !in before
    ensures FirstColon(before + (":" + after)) == |before|
  {
    var s := before + (":" + after);
    if before != "" {
      assert s[0] == before[0] && s[1..] == before[1..] + (":" + after);
      FirstColonOf(before[1..], after);
    }
  }

  lemma OneLineConcat(a: string, b: string)
    requires OneLine(a) && OneLine(b)
    ensures OneLine(a + b)
  {
  }

  lemma ShownShape(value: string, style: Style)
    requires ValueOk(value, style)
    ensures var shown := Shown(value, style);
            shown != "" && Trimmed(shown) && OneLine(shown) && Unquote(shown) == value
  {
    var shown := Shown(value, style);
    if !style.Plain? {
      assert shown[1..|shown| - 1] == value;
    }
  }

  lemma EntryTextShape(e: Entry)
    requires EntryOk(e)
    ensures var line, shown := EntryText(e), Shown(e.value, e.style);
            && line != "" && Trimmed(line) && OneLine(line) && FirstColon(line) == |e.key|
            && line[..|e.key|] == e.key && line[|e.key|] == ':' && line[|e.key| + 1..] == " " + shown
  {
    var line, shown := EntryText(e), Shown(e.value, e.style);
    ShownShape(e.value, e.style);
    FirstColonOf(e.key, " " + shown);
    OneLineConcat(" ", shown);
    OneLineConcat(":", " " + shown);
    OneLineConcat(e.key, ":" + (" " + shown));
    assert line[|line| - 1] == shown[|shown| - 1];
  }

  lemma StripTrimmed(s: string)
    requires Trimmed(s)
    ensures Strip(s) == s
  {
    if s != "" {
      StripPadded("", s, "");
      assert "" + s + "" == s;
    }
  }

  lemma ShownIsRead(value: string, style: Style)
    requires ValueOk(value, style)
    ensures Unquote(Strip(" " + Shown(value, style))) == value
  {
    var shown := Shown(value, style);
    ShownShape(value, style);
    StripPadded(" ", shown, "");
    assert " " + shown + "" == " " + shown;
  }

  /** Splitting an entry's text gives the entry back: quotes, colons, `#` and outer spaces of the value survive. */
  lemma SplitEntryText(e: Entry)
    requires EntryOk(e)
    ensures SplitKv(EntryText(e)) == Some((e.key, e.value))
  {
    EntryTextShape(e);
    StripTrimmed(e.key);
    ShownIsRead(e.value, e.style);
  }

  lemma SplitAtColon(front: string, rest: string)
    requires ':' !in front
    ensures SplitKv(front + (":" + rest)) == Some((Strip(front), Unquote(Strip(rest))))
  {
    var line := front + (":" + rest);
    FirstColonOf(front, rest);
    assert line[..|front|] == front && line[|front| + 1..] == rest;
  }

  lemma PaddedKey(key: string, after: string)
    requires Trimmed(key) && key != "" && ':' !in key && AllSpaces(after)
    ensures ':' !in key + after && Strip(key + after) == key
  {
    SpacesHaveNoColon(after);
    StripPadded("", key, after);
    assert "" + key + after == key + after;
  }

  /** Spaces around the key and the value do not matter. */
  lemma SplitPaddedText(key: string, a: string, b: string, value: string, style: Style, c: string)
    requires Trimmed(key) && key != "" && ':' !in key && AllSpaces(a) && AllSpaces(b) && AllSpaces(c)
    requires ValueOk(value, style)
    ensures SplitKv((key + a) + (":" + (b + Shown(value, style) + c))) == Some((key, value))
  {
    PaddedKey(key, a);
    SplitAtColon(key + a, b + Shown(value, style) + c);
    ShownShape(value, style);
    StripPadded(b, Shown(value, style), c);
  }

  lemma SpacesHaveNoColon(a: string)
    requires AllSpaces(a)
    ensures ':' !in a
  {
  }

  /** One quote character alone is an empty quoted text; a value that is not quoted on both sides stays. */
  lemma UnquoteOddTexts(s: string)
    ensures Unquote("\"") == "" && Unquote("'") == ""
    ensures s != "" && ((s[0] != '"' && s[0] != '\'') || s[0] != s[|s| - 1]) ==> Unquote(s) == s
  {
  }

  lemma ItemTextShape(e: Entry)
    requires EntryOk(e)
    ensures var line := "- " + EntryText(e);
            line != "" && Trimmed(line) && StartsWith(line, "- ") && line[2..] == EntryText(e)
    ensures EntryText(e) != "" && Strip(EntryText(e)) == EntryText(e)
  {
    EntryTextShape(e);
    var line := "- " + EntryText(e);
    assert line[|line| - 1] == EntryText(e)[|EntryText(e)| - 1] && line[0] == '-';
    StripTrimmed(EntryText(e));
  }

  lemma ItemLineKind(e: Entry)
    requires EntryOk(e)
    ensures var line := Strip(e.indent + ("- " + EntryText(e)) + "\n");
            && StartsWith(line, "- ") && Strip(line[2..]) == EntryText(e) && EntryText(e) != "" && !Skipped(line)
  {
    ItemTextShape(e);
    StripPadded(e.indent, "- " + EntryText(e), "\n");
    DashLineGoesOn(e.indent + ("- " + EntryText(e)) + "\n");
  }

  /** The line of a list item starts a new record. */
  lemma ItemLineParses(st: ParseState, e: Entry)
    requires EntryOk(e)
    ensures ParseLine(st, e.indent + ("- " + EntryText(e)) + "\n") ==
            Some(ParseState(Some(map[e.key := e.value]), Flush(st)))
  {
    ItemLineKind(e);
    SplitEntryText(e);
  }

  lemma PrefixOfEntry(e: Entry, prefix: string)
    requires EntryOk(e) && ':' !in prefix
    ensures StartsWith(EntryText(e), prefix) <==> StartsWith(e.key, prefix)
  {
    var line := EntryText(e);
    EntryTextShape(e);
    if |e.key| < |prefix| {
      assert line[|e.key|] == ':' && prefix[|e.key|] != ':';
    } else {
      assert line[..|prefix|] == e.key[..|prefix|];
    }
  }

  lemma KeywordEntry(e: Entry, word: string)
    requires EntryOk(e) && ':' !in word
    ensures StartsWith(EntryText(e), word + ":") <==> e.key == word
  {
    var line := EntryText(e);
    EntryTextShape(e);
    if e.key == word {
      assert line[..|word| + 1] == word + ":";
    }
    if StartsWith(line, word + ":") {
      KeywordFirst(line, word);
    }
  }

  lemma KeywordFirst(line: string, word: string)
    requires StartsWith(line, word + ":") && ':' !in word
    ensures FirstColon(line) == |word| && line[..|word|] == word
  {
    var prefix, rest := word + ":", line[|word| + 1..];
    assert line[..|prefix|] == prefix;
    assert line == prefix + rest;
    assert prefix + rest == word + (":" + rest);
    FirstColonOf(word, rest);
  }

  /** What the line of an entry is taken for. */
  lemma EntryLineKind(e: Entry)
    requires EntryOk(e)
    ensures var raw := e.indent + EntryText(e) + "\n";
            && Strip(raw) == EntryText(e)
            && (StartsWith(e.key, "- ") <==> StartsWith(EntryText(e), "- "))
            && (!StartsWith(e.key, "- ") ==> (PlainKey(e.key) <==> !Skipped(EntryText(e))))
  {
    EntryTextShape(e);
    StripPadded(e.indent, EntryText(e), "\n");
    PrefixOfEntry(e, "#");
    PrefixOfEntry(e, "- ");
    KeywordEntry(e, "version");
    KeywordEntry(e, "exceptions");
    assert "version" + ":" == "version:" && "exceptions" + ":" == "exceptions:";
  }

  /** A line of its own adds the entry to the record under way if its key is plain. Any other key makes the line
      something else: it starts a new record, or is skipped. */
  lemma EntryLineParses(st: ParseState, e: Entry)
    requires EntryOk(e) && st.current.Some?
    ensures var next := ParseLine(st, e.indent + EntryText(e) + "\n");
            && (PlainKey(e.key) ==> next == Some(st.(current := Some(st.current.value[e.key := e.value]))))
            && (!PlainKey(e.key) && !StartsWith(e.key, "- ") ==> next == Some(st))
            && (StartsWith(e.key, "- ") ==> next.Some? && next.value.exceptions == Flush(st))
  {
    EntryLineKind(e);
    SplitEntryText(e);
    if StartsWith(e.key, "- ") {
      DashLineGoesOn(e.indent + EntryText(e) + "\n");
    }
  }

  // ---- A record with plain names for its fields ----

  predicate IsLetter(c: char) {
    'a' <= c <= 'z' || '0' <= c <= '9' || c == '-' || c == '_'
  }

  predicate AllLetters(s: string) {
    s != "" && forall k | 0 <= k < |s| :: IsLetter(s[k])
  }

  /** A name for a field, wherever it stands in a record. */
  predicate FieldName(key: string) {
    AllLetters(key) && key[0] != '-' && key != "version" && key != "exceptions"
  }

  /** Letters and digits can be written in any style. */
  lemma LettersAreOk(value: string, style: Style)
    requires AllLetters(value)
    ensures ValueOk(value, style)
  {
  }

  lemma NamedEntryOk(indent: string, key: string, value: string, style: Style)
    requires indent == "" || indent == "  "
    requires AllLetters(key) && ValueOk(value, style)
    ensures EntryOk(Entry(indent, key, value, style))
  {
  }

  lemma FirstEntry(key: string, value: string, style: Style)
    requires AllLetters(key) && ValueOk(value, style)
    ensures Printable([Entry("", key, value, style)]) && RecordOf([Entry("", key, value, style)]) == map[key := value]
  {
    NamedEntryOk("", key, value, style);
    RecordOfSnoc([], Entry("", key, value, style));
    assert [] + [Entry("", key, value, style)] == [Entry("", key, value, style)];
  }

  lemma OneMoreEntry(es: seq<Entry>, key: string, value: string, style: Style)
    requires Printable(es) && FieldName(key) && ValueOk(value, style)
    ensures Printable(es + [Entry("  ", key, value, style)])
    ensures RecordOf(es + [Entry("  ", key, value, style)]) == RecordOf(es)[key := value]
  {
    NamedEntryOk("  ", key, value, style);
    RecordOfSnoc(es, Entry("  ", key, value, style));
    assert !StartsWith(key, "#") && !StartsWith(key, "- ");
  }

  lemma RecordOfSnoc(es: seq<Entry>, e: Entry)
    ensures RecordOf(es + [e]) == RecordOf(es)[e.key := e.value]
  {
    assert (es + [e])[..|es|] == es;
  }

  // ---- One record ----

  lemma {:induction false} RecordParses(st: ParseState, es: seq<Entry>)
    requires Printable(es)
    ensures ParseFrom(st, Ended(RecordLines(es))) == Some(ParseState(Some(RecordOf(es)), Flush(st)))
    decreases |es|
  {
    var n := |es| - 1;
    if n == 0 {
      FirstEntryParses(st, es);
    } else {
      RecordParses(st, es[..n]);
      LastEntryParses(st, es, ParseState(Some(RecordOf(es[..n])), Flush(st)));
    }
  }

  lemma LastEntryParses(st: ParseState, es: seq<Entry>, mid: ParseState)
    requires Printable(es) && |es| > 1 && mid.current == Some(RecordOf(es[..|es| - 1]))
    requires ParseFrom(st, Ended(RecordLines(es[..|es| - 1]))) == Some(mid)
    ensures ParseFrom(st, Ended(RecordLines(es))) == Some(mid.(current := Some(RecordOf(es))))
  {
    var n := |es| - 1;
    var front, last := Ended(RecordLines(es[..n])), es[n].indent + EntryText(es[n]) + "\n";
    LinesOfLast(es);
    ParseFromConcat(st, front, [last]);
    ParseOne(mid, last);
    EntryLineParses(mid, es[n]);
  }

  lemma LinesOfLast(es: seq<Entry>)
    requires |es| > 1
    ensures var last := es[|es| - 1];
            Ended(RecordLines(es)) == Ended(RecordLines(es[..|es| - 1])) + [last.indent + EntryText(last) + "\n"]
  {
  }

  lemma FirstEntryParses(st: ParseState, es: seq<Entry>)
    requires Printable(es) && |es| == 1
    ensures ParseFrom(st, Ended(RecordLines(es))) == Some(ParseState(Some(RecordOf(es)), Flush(st)))
  {
    assert RecordOf(es) == RecordOf([])[es[0].key := es[0].value] by {
      assert es[..0] == [];
    }
    ItemLineParses(st, es[0]);
    assert Ended(RecordLines(es)) == [es[0].indent + ("- " + EntryText(es[0])) + "\n"];
    ParseOne(st, es[0].indent + ("- " + EntryText(es[0])) + "\n");
  }

  // ---- All records ----

  lemma RecordOfNonEmpty(es: seq<Entry>)
    requires es != []
    ensures RecordOf(es) != map[]
  {
    assert es[|es| - 1].key in RecordOf(es);
  }

  lemma FirstOfRecords(front: seq<Record>, rs: seq<seq<Entry>>)
    requires rs != []
    ensures (front + [RecordOf(rs[0])]) + RecordsOf(rs[1..]) == front + RecordsOf(rs)
  {
    assert RecordsOf(rs) == [RecordOf(rs[0])] + RecordsOf(rs[1..]);
  }

  lemma FirstRecordParses(st: ParseState, rs: seq<seq<Entry>>)
    requires rs != [] && Printable(rs[0])
    ensures ParseFrom(st, Ended(AllLines(rs))) ==
            ParseFrom(ParseState(Some(RecordOf(rs[0])), Flush(st)), Ended(AllLines(rs[1..])))
  {
    var first, rest := Ended(RecordLines(rs[0])), Ended(AllLines(rs[1..]));
    LinesOfFirst(rs);
    ParseFromConcat(st, first, rest);
    RecordParses(st, rs[0]);
  }

  lemma LinesOfFirst(rs: seq<seq<Entry>>)
    requires rs != []
    ensures Ended(AllLines(rs)) == Ended(RecordLines(rs[0])) + Ended(AllLines(rs[1..]))
  {
  }

  lemma {:induction false} AllRecordsParse(st: ParseState, rs: seq<seq<Entry>>)
    requires forall k | 0 <= k < |rs| :: Printable(rs[k])
    ensures ParseFrom(st, Ended(AllLines(rs))).Some?
    ensures Flush(ParseFrom(st, Ended(AllLines(rs))).value) == Flush(st) + RecordsOf(rs)
    decreases |rs|
  {
    if rs == [] {
      assert Flush(st) + [] == Flush(st);
    } else {
      var next := ParseState(Some(RecordOf(rs[0])), Flush(st));
      AllRecordsParse(next, rs[1..]);
      RecordOfNonEmpty(rs[0]);
      FirstRecordParses(st, rs);
      FirstOfRecords(Flush(st), rs);
    }
  }

  lemma ItemTextIsOneLine(e: Entry)
    requires EntryOk(e)
    ensures OneLine(e.indent + ("- " + EntryText(e))) && OneLine(e.indent + EntryText(e))
  {
    EntryTextShape(e);
    OneLineConcat("- ", EntryText(e));
    OneLineConcat(e.indent, "- " + EntryText(e));
    OneLineConcat(e.indent, EntryText(e));
  }

  lemma {:induction false} AllLinesAreLines(rs: seq<seq<Entry>>)
    requires forall k | 0 <= k < |rs| :: Printable(rs[k])
    ensures forall k | 0 <= k < |AllLines(rs)| :: OneLine(AllLines(rs)[k])
  {
    if rs != [] {
      AllLinesAreLines(rs[1..]);
      forall k | 0 <= k < |rs[0]|
        ensures OneLine(RecordLines(rs[0])[k])
      {
        ItemTextIsOneLine(rs[0][k]);
      }
    }
  }

  lemma ParsesToRecords(st: ParseState, rs: seq<seq<Entry>>)
    requires forall k | 0 <= k < |rs| :: Printable(rs[k])
    requires Flush(st) == []
    ensures ParsedFrom(st, Ended(AllLines(rs))) == Some(RecordsOf(rs))
  {
    AllRecordsParse(st, rs);
    assert [] + RecordsOf(rs) == RecordsOf(rs);
  }

  /** Writing a list of printable records to a file and parsing the file gives back the same list. */
  lemma FileRoundTrip(rs: seq<seq<Entry>>)
    requires forall k | 0 <= k < |rs| :: Printable(rs[k])
    ensures Parsed(Lines(FileText(AllLines(rs)))) == Some(RecordsOf(rs))
  {
    ParsesToRecords(START, rs);
    AllLinesAreLines(rs);
    LinesOfFileText(AllLines(rs));
  }
}
