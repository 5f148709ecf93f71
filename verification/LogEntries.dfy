// Parsed log entries and the folding of continuation lines into their parent.
module LogEntries {
  datatype Option<+T> = None | Some(value: T)

  datatype Level = Trace | Debug | Info | Warn | Error | Fatal | Panic | Unknown

  function Severity(level: Level): int {
    match level
    case Trace => 1
    case Debug => 2
    case Info => 3
    case Warn => 4
    case Error => 5
    case Fatal => 6
    case Panic => 7
    case Unknown => 0
  }

  datatype LogEntry = LogEntry(
    timestamp: int,
    level: Level,
    message: string,
    stream: string,
    raw: string,
    fields: map<string, string>,
    continuationCount: nat,
    containerID: string,
    containerName: string)

  // ---------------------------------------------------------------- strings

  // unicode.IsSpace.
  predicate IsSpace(c: char) {
    var n := c as int;
    || 0x09 <= n <= 0x0d || n == 0x20 || n == 0x85 || n == 0xA0
    || n == 0x1680 || 0x2000 <= n <= 0x200a
    || n == 0x2028 || n == 0x2029 || n == 0x202f || n == 0x205f || n == 0x3000
  }

  function TrimLeft(s: string): string {
    if s != "" && IsSpace(s[0]) then TrimLeft(s[1..]) else s
  }

  function TrimRight(s: string): string {
    if s != "" && IsSpace(s[|s| - 1]) then TrimRight(s[..|s| - 1]) else s
  }

  function TrimSpace(s: string): string {
    TrimRight(TrimLeft(s))
  }

  predicate Blank(s: string) {
    TrimSpace(s) == ""
  }

  lemma {:induction false} TrimLeftEmpty(s: string)
    ensures TrimLeft(s) == "" <==> forall i :: 0 <= i < |s| ==> IsSpace(s[i])
    ensures TrimLeft(s) != "" ==> !IsSpace(TrimLeft(s)[0])
  {
    if s != "" && IsSpace(s[0]) {
      TrimLeftEmpty(s[1..]);
      forall i | 0 <= i < |s| && (forall j :: 0 <= j < |s[1..]| ==> IsSpace(s[1..][j]))
        ensures IsSpace(s[i])
      {
        assert i > 0 ==> s[i] == s[1..][i - 1];
      }
    }
  }

  lemma {:induction false} TrimRightKeepsFirst(s: string)
    requires s != "" && !IsSpace(s[0])
    ensures TrimRight(s) != ""
  {
    if IsSpace(s[|s| - 1]) {
      TrimRightKeepsFirst(s[..|s| - 1]);
    }
  }

  // A string trims to nothing exactly when every character is white space.
  lemma BlankIsAllSpace(s: string)
    ensures Blank(s) <==> forall i :: 0 <= i < |s| ==> IsSpace(s[i])
  {
    TrimLeftEmpty(s);
    if TrimLeft(s) != "" {
      TrimRightKeepsFirst(TrimLeft(s));
    }
  }

  // Extending a non-blank string leaves it non-blank.
  lemma ExtendNonBlank(s: string, t: string)
    requires !Blank(s)
    ensures !Blank(s + t)
  {
    BlankIsAllSpace(s);
    BlankIsAllSpace(s + t);
    var i :| 0 <= i < |s| && !IsSpace(s[i]);
    assert (s + t)[i] == s[i];
  }

  predicate AllSpace(s: string) {
    forall i :: 0 <= i < |s| ==> IsSpace(s[i])
  }

  lemma {:induction false} TrimLeftSplit(s: string) returns (lead: string)
    ensures s == lead + TrimLeft(s) && AllSpace(lead)
  {
    if s != "" && IsSpace(s[0]) {
      lead := TrimLeftSplit(s[1..]);
      lead := [s[0]] + lead;
    } else {
      lead := "";
    }
  }

  lemma {:induction false} TrimRightSplit(s: string) returns (tail: string)
    ensures s == TrimRight(s) + tail && AllSpace(tail)
    ensures TrimRight(s) == "" || !IsSpace(TrimRight(s)[|TrimRight(s)| - 1])
  {
    if s != "" && IsSpace(s[|s| - 1]) {
      tail := TrimRightSplit(s[..|s| - 1]);
      tail := tail + [s[|s| - 1]];
      assert s == s[..|s| - 1] + [s[|s| - 1]];
    } else {
      tail := "";
    }
  }

  // Trimming takes all the white space off both ends, and nothing else.
  lemma TrimSpaceSplit(s: string) returns (lead: string, tail: string)
    ensures s == lead + TrimSpace(s) + tail && AllSpace(lead) && AllSpace(tail)
    ensures
      var r := TrimSpace(s);
      r == "" || (!IsSpace(r[0]) && !IsSpace(r[|r| - 1]))
  {
    lead := TrimLeftSplit(s);
    tail := TrimRightSplit(TrimLeft(s));
    TrimLeftEmpty(s);
    if TrimSpace(s) != "" {
      assert TrimLeft(s)[0] == TrimSpace(s)[0];
    }
  }

  // White space in front changes nothing.
  lemma {:induction false} TrimSpaceLead(lead: string, s: string)
    requires AllSpace(lead)
    ensures TrimSpace(lead + s) == TrimSpace(s)
  {
    if lead == "" {
      assert lead + s == s;
    } else {
      assert (lead + s)[1..] == lead[1..] + s;
      TrimSpaceLead(lead[1..], s);
    }
  }

  // ------------------------------------------------- classification of lines

  predicate IsProblemLevel(level: Level) {
    level in {Warn, Error, Fatal, Panic}
  }

  const STACK_PREFIXES: seq<string> :=
    ["at ", "File ", "Traceback ", "Caused by:", "... ", "goroutine "]

  predicate IsStackTrace(message: string) {
    || (exists i :: 0 <= i < |STACK_PREFIXES| && STACK_PREFIXES[i] <= message)
    || ("/" <= message && ':' in message)
  }

  predicate KeyStart(c: char) {
    'A' <= c <= 'Z' || 'a' <= c <= 'z' || c == '_'
  }

  predicate KeyChar(c: char) {
    KeyStart(c) || '0' <= c <= '9' || c == '.' || c == '-'
  }

  // \s of the regular expression: ASCII white space only.
  predicate RegexSpace(c: char) {
    c == '\t' || c == '\n' || c == (12 as char) || c == '\r' || c == ' '
  }

  function KeyLength(s: string): (n: nat)
    ensures n <= |s|
  {
    if s != "" && KeyChar(s[0]) then 1 + KeyLength(s[1..]) else 0
  }

  function SkipRegexSpace(s: string): string {
    if s != "" && RegexSpace(s[0]) then SkipRegexSpace(s[1..]) else s
  }

  // ^([A-Za-z_][A-Za-z0-9_.-]*)\s*[:=]\s*(.+)$ on a trimmed message: the three
  // greedy runs cannot overlap what follows them, and a trimmed message does
  // not end in white space, so there is never anything to backtrack into.
  function StructuredField(message: string): Option<(string, string)> {
    if message == "" || !KeyStart(message[0]) then None
    else
      var n := KeyLength(message);
      var rest := SkipRegexSpace(message[n..]);
      if rest == "" || (rest[0] != ':' && rest[0] != '=') then None
      else
        var value := SkipRegexSpace(rest[1..]);
        if value == "" || '\n' in value then None
        else Some((message[..n], TrimSpace(value)))
  }

  predicate RegexSpaces(s: string) {
    forall i :: 0 <= i < |s| ==> s[i] in {'\t', '\n', 12 as char, '\r', ' '}
  }

  // A key of letters, digits, '_', '.' and '-' that starts with a letter or '_', a
  // colon or an equals sign with white space on either side, and text on one line.
  ghost predicate FieldShape(message: string, key: string, value: string) {
    && key != "" && ('A' <= key[0] <= 'Z' || 'a' <= key[0] <= 'z' || key[0] == '_')
    && (forall c :: c in key ==>
          'A' <= c <= 'Z' || 'a' <= c <= 'z' || '0' <= c <= '9' || c in {'_', '.', '-'})
    && exists gap: string, sep: char, lead: string, text: string ::
         SplitsAs(message, key, gap, sep, lead, text) && value == TrimSpace(text)
  }

  predicate SplitsAs(message: string, key: string, gap: string, sep: char, lead: string, text: string) {
    && message == key + gap + [sep] + lead + text && RegexSpaces(gap) && RegexSpaces(lead)
    && (sep == ':' || sep == '=') && text != "" && '\n' !in text
  }

  lemma {:induction false} SkipSplit(s: string) returns (lead: string)
    ensures s == lead + SkipRegexSpace(s) && RegexSpaces(lead)
    ensures SkipRegexSpace(s) == "" || !RegexSpace(SkipRegexSpace(s)[0])
  {
    if s != "" && RegexSpace(s[0]) {
      lead := SkipSplit(s[1..]);
      lead := [s[0]] + lead;
    } else {
      lead := "";
    }
  }

  lemma {:induction false} SkipLead(lead: string, s: string)
    requires RegexSpaces(lead)
    ensures SkipRegexSpace(lead + s) == SkipRegexSpace(s)
  {
    if lead == "" {
      assert lead + s == s;
    } else {
      assert (lead + s)[1..] == lead[1..] + s;
      SkipLead(lead[1..], s);
    }
  }

  lemma {:induction false} KeyLengthOf(key: string, rest: string)
    requires forall c :: c in key ==> KeyChar(c)
    requires rest != "" && !KeyChar(rest[0])
    ensures KeyLength(key + rest) == |key|
  {
    if key == "" {
      assert key + rest == rest;
    } else {
      assert (key + rest)[1..] == key[1..] + rest && key[0] in key;
      KeyLengthOf(key[1..], rest);
    }
  }

  lemma {:induction false} KeyLengthChars(s: string)
    ensures forall c :: c in s[..KeyLength(s)] ==> KeyChar(c)
  {
    if s != "" && KeyChar(s[0]) {
      KeyLengthChars(s[1..]);
      assert s[..KeyLength(s)] == [s[0]] + s[1..][..KeyLength(s[1..])];
    }
  }

  // The field of a line is found by its shape: the three greedy runs of the
  // expression miss none and split none differently.
  lemma FieldFound(message: string, key: string, value: string)
    requires StructuredField(message) == Some((key, value))
    ensures FieldShape(message, key, value)
  {
    hide KeyLength, SkipRegexSpace, TrimSpace, RegexSpaces, RegexSpace;
    var n := KeyLength(message);
    KeyLengthChars(message);
    KeyLengthStarts(message);
    var rest := SkipRegexSpace(message[n..]);
    var gap := SkipSplit(message[n..]);
    var text := SkipRegexSpace(rest[1..]);
    var lead := SkipSplit(rest[1..]);
    assert rest == [rest[0]] + rest[1..];
    assert message == key + message[n..];
    assert SplitsAs(message, key, gap, rest[0], lead, text);
  }

  lemma KeyLengthStarts(s: string)
    requires s != "" && KeyStart(s[0])
    ensures KeyLength(s) > 0
  {}

  lemma FieldParsed(message: string, key: string, gap: string, sep: char, lead: string, text: string)
    requires FieldShape(message, key, TrimSpace(text)) && SplitsAs(message, key, gap, sep, lead, text)
    requires !IsSpace(message[|message| - 1])
    ensures StructuredField(message) == Some((key, TrimSpace(text)))
  {
    hide KeyLength, SkipRegexSpace, TrimSpace;
    var rest := gap + [sep] + lead + text;
    assert message == key + rest;
    KeyLengthOf(key, rest);
    assert message[|key|..] == rest && message[..|key|] == key;
    SkipLead(gap, [sep] + lead + text);
    assert gap + ([sep] + lead + text) == rest;
    SepStays(sep, lead + text);
    assert [sep] + lead + text == [sep] + (lead + text);
    SkipLead(lead, text);
    assert message[|message| - 1] == text[|text| - 1];
    TextLeft(text);
    var more := SkipSplit(text);
    var value := SkipRegexSpace(text);
    TrimSpaceLead(more, value);
  }

  lemma {:induction false} TextLeft(text: string)
    requires text != "" && !RegexSpace(text[|text| - 1])
    ensures SkipRegexSpace(text) != ""
  {
    if RegexSpace(text[0]) {
      TextLeft(text[1..]);
    }
  }

  lemma SepStays(sep: char, rest: string)
    requires sep == ':' || sep == '='
    ensures SkipRegexSpace([sep] + rest) == [sep] + rest
  {}

  // Exactly the trimmed messages of that shape give a field.
  lemma StructuredFieldIff(message: string, key: string, value: string)
    requires message != "" && !IsSpace(message[|message| - 1])
    ensures StructuredField(message) == Some((key, value)) <==> FieldShape(message, key, value)
  {
    hide StructuredField, TrimSpace, SplitsAs;
    if StructuredField(message) == Some((key, value)) {
      FieldFound(message, key, value);
    }
    if FieldShape(message, key, value) {
      var gap: string, sep: char, lead: string, text: string :|
        SplitsAs(message, key, gap, sep, lead, text) && value == TrimSpace(text);
      FieldParsed(message, key, gap, sep, lead, text);
    }
  }

  predicate FieldLine(entry: LogEntry) {
    StructuredField(TrimSpace(entry.message)).Some?
  }

  // ------------------------------------------------------------- continuation

  predicate IsContinuation(entry: LogEntry, previous: LogEntry) {
    && entry.level == Unknown
    && !Blank(entry.message)
    && !Blank(previous.message)
    && (FieldLine(entry) || (IsStackTrace(TrimSpace(entry.message)) && IsProblemLevel(previous.level)))
  }

  // How a stack-trace line begins.
  predicate TraceLine(message: string) {
    || "at " <= message || "File " <= message || "Traceback " <= message || "Caused by:" <= message
    || "... " <= message || "goroutine " <= message || ("/" <= message && ':' in message)
  }

  // A line without a level continues an entry when neither is blank and it gives a
  // field, or is a stack-trace line under a problem.
  lemma ContinuesExactly(entry: LogEntry, previous: LogEntry)
    ensures IsContinuation(entry, previous) <==>
      && entry.level == Unknown && !AllSpace(entry.message) && !AllSpace(previous.message)
      && (|| (exists key, value :: FieldShape(TrimSpace(entry.message), key, value))
          || (TraceLine(TrimSpace(entry.message))
              && (previous.level.Warn? || previous.level.Error? || previous.level.Fatal? || previous.level.Panic?)))
  {
    hide TrimSpace, StructuredField, FieldShape;
    var message := TrimSpace(entry.message);
    BlankIsAllSpace(entry.message);
    BlankIsAllSpace(previous.message);
    TraceLineExactly(message);
    if !AllSpace(entry.message) {
      var lead, tail := TrimSpaceSplit(entry.message);
      forall key, value
        ensures StructuredField(message) == Some((key, value)) <==> FieldShape(message, key, value)
      {
        StructuredFieldIff(message, key, value);
      }
      if StructuredField(message).Some? {
        var (key, value) := StructuredField(message).value;
        assert FieldShape(message, key, value);
      }
    }
  }

  lemma TraceLineExactly(message: string)
    ensures IsStackTrace(message) <==> TraceLine(message)
  {
    assert STACK_PREFIXES[0] == "at " && STACK_PREFIXES[1] == "File " && STACK_PREFIXES[2] == "Traceback ";
    assert STACK_PREFIXES[3] == "Caused by:" && STACK_PREFIXES[4] == "... " && STACK_PREFIXES[5] == "goroutine ";
  }

  function Joined(text: string, more: string): string {
    if more == "" then text else if text == "" then more else text + "\n" + more
  }

  // The field a line gives the entry it continues.
  function Given(line: LogEntry): Option<(string, string)> {
    StructuredField(TrimSpace(line.message))
  }

  function WithField(fields: map<string, string>, line: LogEntry): map<string, string> {
    match Given(line)
    case Some((key, value)) => fields[key := value]
    case None => fields
  }

  function AppendContinuation(entry: LogEntry, continuation: LogEntry): LogEntry {
    var message := TrimSpace(continuation.message);
    entry.(message := Joined(entry.message, message),
           raw := Joined(entry.raw, continuation.raw),
           fields := WithField(entry.fields, continuation),
           continuationCount := entry.continuationCount + 1)
  }

  // Two entries a later line cannot tell apart.
  predicate LooksLike(a: LogEntry, b: LogEntry) {
    a.containerID == b.containerID && a.level == b.level && (Blank(a.message) <==> Blank(b.message))
  }

  // Folding a line into an entry does not change what later lines see of it.
  lemma AppendLooksLike(entry: LogEntry, head: LogEntry, continuation: LogEntry)
    requires LooksLike(entry, head) && IsContinuation(continuation, head)
    ensures IsContinuation(continuation, entry)
    ensures LooksLike(AppendContinuation(entry, continuation), head)
  {
    var message := TrimSpace(continuation.message);
    BlankIsAllSpace(entry.message);
    ExtendNonBlank(entry.message, "\n" + message);
    assert entry.message + "\n" + message == entry.message + ("\n" + message);
  }

  // One more line either continues the last entry or starts its own.
  function FoldLine(grouped: seq<LogEntry>, entry: LogEntry): seq<LogEntry> {
    if grouped != [] && IsContinuation(entry, grouped[|grouped| - 1])
    then grouped[|grouped| - 1 := AppendContinuation(grouped[|grouped| - 1], entry)]
    else grouped + [entry]
  }

  // Folding, as a function of the lines seen so far.
  function Folded(entries: seq<LogEntry>): (grouped: seq<LogEntry>)
    ensures |grouped| <= |entries|
    ensures entries != [] ==> grouped != []
  {
    if entries == [] then []
    else FoldLine(Folded(entries[..|entries| - 1]), entries[|entries| - 1])
  }

  // ------------------------------------------------------------ what an entry says

  function NonEmpty(texts: seq<string>): seq<string> {
    if texts == [] then []
    else NonEmpty(texts[..|texts| - 1]) + if texts[|texts| - 1] == "" then [] else [texts[|texts| - 1]]
  }

  // The texts with line breaks between them.
  function Join(texts: seq<string>): string {
    if texts == [] then ""
    else if |texts| == 1 then texts[0]
    else Join(texts[..|texts| - 1]) + "\n" + texts[|texts| - 1]
  }

  // The texts that are not empty, one below the other.
  function Text(texts: seq<string>): string {
    Join(NonEmpty(texts))
  }

  lemma {:induction false} NonEmptyAll(texts: seq<string>)
    ensures forall i :: 0 <= i < |NonEmpty(texts)| ==> NonEmpty(texts)[i] != ""
  {
    if texts != [] {
      NonEmptyAll(texts[..|texts| - 1]);
    }
  }

  lemma {:induction false} NonEmptyConcat(a: seq<string>, b: seq<string>)
    ensures NonEmpty(a + b) == NonEmpty(a) + NonEmpty(b)
  {
    if b == [] {
      assert a + b == a;
    } else {
      NonEmptyConcat(a, b[..|b| - 1]);
      assert (a + b)[..|a + b| - 1] == a + b[..|b| - 1];
    }
  }

  lemma {:induction false} JoinConcat(a: seq<string>, b: seq<string>)
    ensures Join(a + b) == if a == [] then Join(b) else if b == [] then Join(a) else Join(a) + "\n" + Join(b)
  {
    if a == [] {
      assert a + b == b;
    } else if b == [] {
      assert a + b == a;
    } else {
      var init, last := b[..|b| - 1], b[|b| - 1];
      JoinConcat(a, init);
      assert (a + b)[..|a + b| - 1] == a + init;
      assert Join(a + b) == Join(a + init) + "\n" + last;
      if init != [] {
        assert Join(a) + "\n" + Join(init) + "\n" + last == Join(a) + "\n" + (Join(init) + "\n" + last);
      } else {
        assert b == [last];
      }
    }
  }

  lemma JoinEmpty(texts: seq<string>)
    requires forall i :: 0 <= i < |texts| ==> texts[i] != ""
    ensures Join(texts) == "" <==> texts == []
  {}

  // Two texts below each other are all their lines below each other.
  lemma TextConcat(a: seq<string>, b: seq<string>)
    ensures Text(a + b) == Joined(Text(a), Text(b))
  {
    hide Join, NonEmpty;
    NonEmptyConcat(a, b);
    JoinConcat(NonEmpty(a), NonEmpty(b));
    NonEmptyAll(a);
    NonEmptyAll(b);
    JoinEmpty(NonEmpty(a));
    JoinEmpty(NonEmpty(b));
  }

  lemma TextOne(text: string)
    ensures Text([text]) == text
  {
    assert [text][..0] == [];
    assert NonEmpty([text]) == if text == "" then [] else [text];
  }

  function Raws(lines: seq<LogEntry>): (raws: seq<string>)
    ensures |raws| == |lines|
  {
    seq(|lines|, i requires 0 <= i < |lines| => lines[i].raw)
  }

  // The first line's message as it is, then the others' without the white space around.
  function Messages(lines: seq<LogEntry>): (messages: seq<string>)
    ensures |messages| == |lines|
  {
    seq(|lines|, i requires 0 <= i < |lines| => if i == 0 then lines[i].message else TrimSpace(lines[i].message))
  }

  predicate GivesKey(line: LogEntry, key: string) {
    Given(line).Some? && Given(line).value.0 == key
  }

  // Of the lines behind the first one, line i is the last to give the key.
  predicate LastGiven(lines: seq<LogEntry>, i: int, key: string) {
    0 < i < |lines| && GivesKey(lines[i], key) && forall j :: i < j < |lines| ==> !GivesKey(lines[j], key)
  }

  // The first line's fields and those the others give; the last value of a key counts.
  ghost predicate FieldsOf(fields: map<string, string>, lines: seq<LogEntry>)
    requires lines != []
  {
    && (forall i, key :: LastGiven(lines, i, key) ==> key in fields && fields[key] == Given(lines[i]).value.1)
    && (forall key :: (forall i :: 0 < i < |lines| ==> !GivesKey(lines[i], key)) ==>
          (key in fields <==> key in lines[0].fields) && (key in fields ==> fields[key] == lines[0].fields[key]))
  }

  // What an entry of these lines says: all of their text and fields, under the first
  // line's time, level, stream and container.
  ghost predicate Tells(entry: LogEntry, lines: seq<LogEntry>)
    requires lines != []
  {
    && entry == lines[0].(message := entry.message, raw := entry.raw, fields := entry.fields,
                          continuationCount := entry.continuationCount)
    && entry.message == Text(Messages(lines))
    && entry.raw == Text(Raws(lines))
    && FieldsOf(entry.fields, lines)
    && entry.continuationCount == lines[0].continuationCount + |lines| - 1
  }

  lemma TellsItself(line: LogEntry)
    ensures Tells(line, [line])
  {
    hide Text, GivesKey;
    assert Messages([line]) == [line.message] && Raws([line]) == [line.raw];
    TextOne(line.message);
    TextOne(line.raw);
  }

  lemma FieldsNext(fields: map<string, string>, lines: seq<LogEntry>, line: LogEntry)
    requires lines != [] && FieldsOf(fields, lines)
    ensures FieldsOf(WithField(fields, line), lines + [line])
  {
    hide Given;
    var all, n := lines + [line], |lines|;
    var fields' := WithField(fields, line);
    forall i, key | LastGiven(all, i, key)
      ensures key in fields' && fields'[key] == Given(all[i]).value.1
    {
      if i < n {
        assert forall j :: i < j < n ==> all[j] == lines[j];
        assert LastGiven(lines, i, key) && !GivesKey(all[n], key);
      }
    }
    forall key | forall i :: 0 < i < |all| ==> !GivesKey(all[i], key)
      ensures (key in fields' <==> key in all[0].fields) && (key in fields' ==> fields'[key] == all[0].fields[key])
    {
      forall i | 0 < i < n
        ensures !GivesKey(lines[i], key)
      {
        assert !GivesKey(all[i], key);
      }
      assert !GivesKey(all[n], key);
    }
  }

  // Folding one more line in says that line too.
  lemma TellsNext(entry: LogEntry, lines: seq<LogEntry>, line: LogEntry)
    requires lines != [] && Tells(entry, lines)
    ensures Tells(AppendContinuation(entry, line), lines + [line])
  {
    hide Text, FieldsOf, WithField, TrimSpace, Joined;
    assert Messages(lines + [line]) == Messages(lines) + [TrimSpace(line.message)];
    assert Raws(lines + [line]) == Raws(lines) + [line.raw];
    TextConcat(Messages(lines), [TrimSpace(line.message)]);
    TextConcat(Raws(lines), [line.raw]);
    TextOne(TrimSpace(line.message));
    TextOne(line.raw);
    FieldsNext(entry.fields, lines, line);
  }

  // The lines from cut on are those of one entry: each continues the first of them.
  ghost predicate TellsFrom(entry: LogEntry, lines: seq<LogEntry>, cut: nat) {
    && cut < |lines| && Tells(entry, lines[cut..])
    && forall i :: cut < i < |lines| ==> IsContinuation(lines[i], lines[cut])
  }

  // The entries tell the lines in order, each its own run of them, and a run ends
  // only before a line that does not continue it.
  ghost predicate Retells(grouped: seq<LogEntry>, lines: seq<LogEntry>) {
    if grouped == [] then lines == []
    else
      var n := |grouped| - 1;
      exists cut :: 0 <= cut < |lines|
        && TellsFrom(grouped[n], lines, cut) && Retells(grouped[..n], lines[..cut])
        && (n > 0 ==> !IsContinuation(lines[cut], grouped[n - 1]))
  }

  // The last entry's run, and what is before it.
  ghost predicate Last(grouped: seq<LogEntry>, lines: seq<LogEntry>, cut: nat)
    requires grouped != []
  {
    var n := |grouped| - 1;
    && TellsFrom(grouped[n], lines, cut) && Retells(grouped[..n], lines[..cut])
    && (n > 0 ==> !IsContinuation(lines[cut], grouped[n - 1]))
  }

  lemma RetellsWith(grouped: seq<LogEntry>, lines: seq<LogEntry>, cut: nat)
    requires grouped != [] && Last(grouped, lines, cut)
    ensures Retells(grouped, lines)
  {
    hide Tells, IsContinuation;
  }

  lemma RetellsLast(grouped: seq<LogEntry>, lines: seq<LogEntry>) returns (cut: nat)
    requires grouped != [] && Retells(grouped, lines)
    ensures Last(grouped, lines, cut)
  {
    hide TellsFrom, IsContinuation;
    var n := |grouped| - 1;
    cut :| 0 <= cut < |lines|
      && TellsFrom(grouped[n], lines, cut) && Retells(grouped[..n], lines[..cut])
      && (n > 0 ==> !IsContinuation(lines[cut], grouped[n - 1]));
  }

  lemma RetellsStart(grouped: seq<LogEntry>, lines: seq<LogEntry>, line: LogEntry)
    requires Retells(grouped, lines)
    requires grouped != [] ==> !IsContinuation(line, grouped[|grouped| - 1])
    ensures Retells(grouped + [line], lines + [line])
  {
    hide Tells, IsContinuation, Retells;
    var cut, all := |lines|, lines + [line];
    TellsItself(line);
    assert all[cut..] == [line] && all[..cut] == lines && (grouped + [line])[..|grouped|] == grouped;
    RetellsWith(grouped + [line], all, cut);
  }

  lemma TellsLike(entry: LogEntry, lines: seq<LogEntry>, cut: nat, line: LogEntry)
    requires TellsFrom(entry, lines, cut)
    ensures entry.level == lines[cut].level
    ensures Blank(entry.message) <==> Blank(lines[cut].message)
    ensures IsContinuation(line, entry) <==> IsContinuation(line, lines[cut])
  {
    hide Text, FieldsOf, TrimSpace, FieldLine, IsStackTrace;
    var run := lines[cut..];
    var head, rest := run[0].message, Messages(run)[1..];
    if |run| > 1 {
      assert IsContinuation(lines[cut + 1], lines[cut]);
      BlankIsAllSpace(head);
      assert Messages(run) == [head] + rest;
      TextConcat([head], rest);
      TextOne(head);
      ExtendNonBlank(head, "\n" + Text(rest));
      assert head + "\n" + Text(rest) == head + ("\n" + Text(rest));
    } else {
      assert Messages(run) == [head];
      TextOne(head);
    }
  }

  // A line that continues the last entry continues its first line.
  lemma RetellsContinue(grouped: seq<LogEntry>, lines: seq<LogEntry>, line: LogEntry)
    requires grouped != [] && Retells(grouped, lines) && IsContinuation(line, grouped[|grouped| - 1])
    ensures
      var n := |grouped| - 1;
      Retells(grouped[n := AppendContinuation(grouped[n], line)], lines + [line])
  {
    hide Tells, IsContinuation, AppendContinuation, Blank, Retells;
    var n, all := |grouped| - 1, lines + [line];
    var cut := RetellsLast(grouped, lines);
    TellsNext(grouped[n], lines[cut..], line);
    assert all[cut..] == lines[cut..] + [line] && all[..cut] == lines[..cut];
    var grouped' := grouped[n := AppendContinuation(grouped[n], line)];
    assert grouped'[..n] == grouped[..n];
    TellsLike(grouped[n], lines, cut, line);
    assert forall i :: cut < i < |lines| ==> all[i] == lines[i];
    RetellsWith(grouped', all, cut);
  }

  // Grouping loses no text and no field of any line, and adds none.
  lemma {:induction false} FoldedRetells(lines: seq<LogEntry>)
    ensures Retells(Folded(lines), lines)
  {
    hide Retells, IsContinuation, AppendContinuation;
    if lines == [] {
      NothingToTell();
    } else {
      var init, last := lines[..|lines| - 1], lines[|lines| - 1];
      var grouped := Folded(init);
      assert lines == init + [last];
      FoldedRetells(init);
      if grouped != [] && IsContinuation(last, grouped[|grouped| - 1]) {
        RetellsContinue(grouped, init, last);
      } else {
        RetellsStart(grouped, init, last);
      }
    }
  }

  lemma NothingToTell()
    ensures Retells([], [])
  {}

  // The raw text of the entries is the raw text of the lines.
  lemma {:induction false} RetoldRaws(grouped: seq<LogEntry>, lines: seq<LogEntry>)
    requires Retells(grouped, lines)
    ensures Text(Raws(grouped)) == Text(Raws(lines))
    decreases |grouped|
  {
    hide Text, IsContinuation, FieldsOf, Retells;
    if grouped == [] {
      NoLinesTold(lines);
    } else {
      var n := |grouped| - 1;
      var cut := RetellsLast(grouped, lines);
      RetoldRaws(grouped[..n], lines[..cut]);
      assert Raws(grouped) == Raws(grouped[..n]) + [grouped[n].raw];
      assert Raws(lines) == Raws(lines[..cut]) + Raws(lines[cut..]);
      TextConcat(Raws(grouped[..n]), [grouped[n].raw]);
      TextConcat(Raws(lines[..cut]), Raws(lines[cut..]));
      TextOne(grouped[n].raw);
    }
  }

  lemma NoLinesTold(lines: seq<LogEntry>)
    requires Retells([], lines)
    ensures lines == []
  {}

  method GroupRelated(entries: seq<LogEntry>) returns (grouped: seq<LogEntry>)
    ensures grouped == Folded(entries) && Retells(grouped, entries)
    ensures Text(Raws(grouped)) == Text(Raws(entries))
  {
    hide IsContinuation, AppendContinuation, Retells, Text;
    grouped := [];
    for i := 0 to |entries|
      invariant grouped == Folded(entries[..i])
    {
      var entry := entries[i];
      assert entries[..i + 1][..i] == entries[..i];
      if |grouped| > 0 && IsContinuation(entry, grouped[|grouped| - 1]) {
        grouped := grouped[|grouped| - 1 := AppendContinuation(grouped[|grouped| - 1], entry)];
      } else {
        grouped := grouped + [entry];
      }
    }
    assert entries[..|entries|] == entries;
    FoldedRetells(entries);
    RetoldRaws(grouped, entries);
  }

  // A pair folds into one entry exactly when the second continues the first.
  lemma FoldedPair(first: LogEntry, second: LogEntry)
    ensures IsContinuation(second, first) ==> Folded([first, second]) == [AppendContinuation(first, second)]
    ensures !IsContinuation(second, first) ==> Folded([first, second]) == [first, second]
  {}
}
