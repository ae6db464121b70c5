/** The payload parser `parseStringToJson`: decoded QR text, read as lines of
    `Key: Value`, becomes an object holding at most the two fields `Name` and
    `Event Id`. The object is a map from property name to value; the two-slot
    record is what the caller destructures out of it. */
module PayloadParser {
  import opened Wrappers
  import opened JsString

  const NameKey: string := "Name"
  const EventIdKey: string := "Event Id"

  /** The only property names the parser stores (exact, case-sensitive). */
  predicate IsRecognizedKey(k: string) {
    k == NameKey || k == EventIdKey
  }

  /** The object the parser builds: property name to value. */
  type Fields = map<string, string>

  /** The pieces of one line: trimmed, every quote deleted, split at each ':' and
      each piece trimmed. */
  function LineParts(line: string): (parts: seq<string>)
    ensures |parts| >= 1
  {
    TrimPieces(Split(RemoveAll(Trim(line), '"'), ':'))
  }

  /** `pieces.map(part => part.trim())`. */
  function TrimPieces(pieces: seq<string>): (parts: seq<string>)
    ensures |parts| == |pieces|
    ensures forall i :: 0 <= i < |parts| ==> IsTrimmed(parts[i])
  {
    seq(|pieces|, i requires 0 <= i < |pieces| => Trim(pieces[i]))
  }

  /** Each piece of a line is trimmed and has no quote and no ':'; a line without a
      line break gives pieces without one. */
  lemma LinePartsClean(line: string)
    ensures forall i :: 0 <= i < |LineParts(line)| ==>
              IsTrimmed(LineParts(line)[i]) && '"' !in LineParts(line)[i] && ':' !in LineParts(line)[i]
    ensures '\n' !in line ==> forall i :: 0 <= i < |LineParts(line)| ==> '\n' !in LineParts(line)[i]
  {
    var trimmedLine := RemoveAll(Trim(line), '"');
    var pieces := Split(trimmedLine, ':');
    assert LineParts(line) == TrimPieces(pieces);
    SplitPieces(trimmedLine, ':', '"');
    if '\n' !in line {
      TrimKeepsAbsent(line, '\n');
      RemoveAllKeepsAbsent(Trim(line), '"', '\n');
      SplitPieces(trimmedLine, ':', '\n');
    }
    forall i | 0 <= i < |pieces|
      ensures '"' !in Trim(pieces[i]) && ':' !in Trim(pieces[i])
      ensures '\n' !in line ==> '\n' !in Trim(pieces[i])
    {
      TrimKeepsAbsent(pieces[i], '"');
      TrimKeepsAbsent(pieces[i], ':');
      if '\n' !in line {
        TrimKeepsAbsent(pieces[i], '\n');
      }
    }
  }

  /** The key and value a line contributes: present exactly when the line has a
      ':'; the key is the first piece, the value the other pieces joined with ':'
      and trimmed. */
  function LineEntry(line: string): (entry: Option<(string, string)>)
    ensures entry.Some? ==> IsTrimmed(entry.value.0) && IsTrimmed(entry.value.1)
  {
    var parts := LineParts(line);
    if |parts| >= 2 then Some((parts[0], Trim(Join(parts[1..], ':')))) else None
  }

  /** What one line contributes: nothing, or a key and a value. */
  type Entry = Option<(string, string)>

  /** The entry of every line, in order. */
  function Entries(lines: seq<string>): (entries: seq<Entry>)
    ensures |entries| == |lines|
  {
    seq(|lines|, i requires 0 <= i < |lines| => LineEntry(lines[i]))
  }

  /** One iteration of the loop: store the entry's value under its key when the key
      is recognized; otherwise leave the object as it is. */
  function Store(fields: Fields, entry: Entry): (updated: Fields)
    ensures entry.Some? && IsRecognizedKey(entry.value.0) ==>
              entry.value.0 in updated && updated[entry.value.0] == entry.value.1
    ensures forall k :: k in updated <==> k in fields || (Sets(entry, k) && IsRecognizedKey(k))
    ensures forall k :: k in fields && !(Sets(entry, k) && IsRecognizedKey(k)) ==> updated[k] == fields[k]
  {
    match entry
    case Some((key, value)) => if IsRecognizedKey(key) then fields[key := value] else fields
    case None => fields
  }

  /** The object after the loop has stored `entries` in order. Only recognized keys
      are ever stored. */
  function Collect(entries: seq<Entry>): (fields: Fields)
    ensures forall k :: k in fields ==> IsRecognizedKey(k)
  {
    if |entries| == 0 then map[]
    else Store(Collect(entries[..|entries| - 1]), entries[|entries| - 1])
  }

  /** The functional specification of `parseStringToJson`. */
  function Parse(text: string): (fields: Fields)
    ensures forall k :: k in fields ==> IsRecognizedKey(k)
  {
    Collect(Entries(Split(text, '\n')))
  }

  /** `parseStringToJson`: split at line breaks, then update the object line by line. */
  method ParseStringToJson(str: string) returns (result: Fields)
    ensures result == Parse(str)
    ensures forall k :: k in result ==> IsRecognizedKey(k)
  {
    var lines := Split(str, '\n');
    ghost var entries := Entries(lines);
    result := map[];
    var i := 0;
    while i < |lines|
      invariant 0 <= i <= |lines|
      invariant result == Collect(entries[..i])
    {
      CollectStep(entries, i);
      EntryAt(lines, i);
      result := StoreLine(result, lines[i]);
      i := i + 1;
    }
    assert entries[..|lines|] == entries;
  }

  /** The body of the loop for one line: take its pieces, and store the value when
      there is a ':' and the key is recognized. */
  method StoreLine(fields: Fields, line: string) returns (updated: Fields)
    ensures updated == Store(fields, LineEntry(line))
  {
    var parts := LineParts(line);
    updated := fields;
    if |parts| >= 2 {
      var key := parts[0];
      var value := Trim(Join(parts[1..], ':'));
      assert LineEntry(line) == Some((key, value));
      if key == NameKey || key == EventIdKey {
        updated := updated[key := value];
      }
    } else {
      assert LineEntry(line) == None;
    }
  }

  /** Entry `i` is what line `i` contributes. */
  lemma EntryAt(lines: seq<string>, i: nat)
    requires i < |lines|
    ensures Entries(lines)[i] == LineEntry(lines[i])
  {
  }

  /** Storing one more entry extends the fold by one step. */
  lemma CollectStep(entries: seq<Entry>, i: nat)
    requires i < |entries|
    ensures Collect(entries[..i + 1]) == Store(Collect(entries[..i]), entries[i])
  {
    assert entries[..i + 1][..i] == entries[..i];
  }

  // ---------------------------------------------------------------------------
  // What the stored keys and values look like

  /** A value as the parser stores it: no quote, no line break, no whitespace at
      either end, and none next to any ':' inside it. */
  predicate IsCleanValue(v: string) {
    && '"' !in v
    && '\n' !in v
    && IsTrimmed(v)
    && forall j :: 0 <= j < |Split(v, ':')| ==> IsTrimmed(Split(v, ':')[j])
  }

  /** A key that a `Key: Value` line can carry and the parser reads back unchanged. */
  predicate IsCleanKey(k: string) {
    |k| > 0 && IsTrimmed(k) && '"' !in k && ':' !in k && '\n' !in k
  }

  /** Every key is quote-free and trimmed; every value of a line without a line
      break is clean. */
  lemma EntryClean(line: string)
    requires '\n' !in line
    ensures LineEntry(line).Some? ==>
              var (k, v) := LineEntry(line).value;
              '"' !in k && IsTrimmed(k) && IsCleanValue(v)
  {
    var parts := LineParts(line);
    LinePartsClean(line);
    if |parts| >= 2 {
      JoinedValueClean(parts[1..]);
    }
  }

  /** Clean pieces joined with ':' give a clean value that `trim` leaves alone. */
  lemma JoinedValueClean(rest: seq<string>)
    requires |rest| >= 1
    requires forall i :: 0 <= i < |rest| ==>
               IsTrimmed(rest[i]) && '"' !in rest[i] && ':' !in rest[i] && '\n' !in rest[i]
    ensures Trim(Join(rest, ':')) == Join(rest, ':')
    ensures IsCleanValue(Join(rest, ':'))
  {
    JoinExcludes(rest, ':', '"');
    JoinExcludes(rest, ':', '\n');
    JoinTrimmed(rest, ':');
    SplitJoin(rest, ':');
  }

  /** Storing entries with clean values gives an object with clean values. */
  lemma {:induction false} CollectClean(entries: seq<Entry>)
    requires forall i :: 0 <= i < |entries| && entries[i].Some? ==> IsCleanValue(entries[i].value.1)
    ensures forall k :: k in Collect(entries) ==> IsCleanValue(Collect(entries)[k])
  {
    if |entries| > 0 {
      CollectClean(entries[..|entries| - 1]);
    }
  }

  /** The parser never fails, and whatever it returns holds only `Name` and
      `Event Id`, each with a clean value. */
  lemma ParsedFieldsClean(text: string)
    ensures forall k :: k in Parse(text) ==> IsRecognizedKey(k) && IsCleanValue(Parse(text)[k])
  {
    var lines := Split(text, '\n');
    var entries := Entries(lines);
    SplitPieces(text, '\n', '\n');
    forall i | 0 <= i < |entries| && entries[i].Some? ensures IsCleanValue(entries[i].value.1) {
      EntryClean(lines[i]);
    }
    CollectClean(entries);
  }

  // ---------------------------------------------------------------------------
  // Which line decides each field

  /** The entry gives a value for key `k`. */
  predicate Sets(entry: Entry, k: string) {
    entry.Some? && entry.value.0 == k
  }

  /** A recognized key takes the value of the last entry that sets it. */
  lemma {:induction false} LastSetterWins(entries: seq<Entry>, k: string, i: nat)
    requires IsRecognizedKey(k)
    requires i < |entries| && Sets(entries[i], k)
    requires forall j :: i < j < |entries| ==> !Sets(entries[j], k)
    ensures k in Collect(entries) && Collect(entries)[k] == entries[i].value.1
  {
    var n := |entries|;
    if i < n - 1 {
      LastSetterWins(entries[..n - 1], k, i);
    }
  }

  /** A key no entry sets is absent. */
  lemma {:induction false} UnsetKeyAbsent(entries: seq<Entry>, k: string)
    requires forall j :: 0 <= j < |entries| ==> !Sets(entries[j], k)
    ensures k !in Collect(entries)
  {
    if |entries| > 0 {
      UnsetKeyAbsent(entries[..|entries| - 1], k);
    }
  }

  /** Entry `i` sets `k` and no later entry sets it again. */
  predicate IsLastSetter(entries: seq<Entry>, k: string, i: int) {
    0 <= i < |entries| && Sets(entries[i], k)
    && forall j :: i < j < |entries| ==> !Sets(entries[j], k)
  }

  /** Every stored field comes from an entry that sets it, and no later entry sets
      that key again. */
  lemma {:induction false} StoredFieldHasLastSetter(entries: seq<Entry>, k: string)
    requires k in Collect(entries)
    ensures exists i :: IsLastSetter(entries, k, i) && entries[i].value.1 == Collect(entries)[k]
  {
    var n := |entries|;
    var init := entries[..n - 1];
    if !Sets(entries[n - 1], k) {
      StoredFieldHasLastSetter(init, k);
      var i :| IsLastSetter(init, k, i) && init[i].value.1 == Collect(init)[k];
      assert entries[i] == init[i];
      assert IsLastSetter(entries, k, i);
    } else {
      assert IsLastSetter(entries, k, n - 1);
    }
  }

  /** An entry that sets no recognized key can be inserted anywhere without effect. */
  lemma {:induction false} IgnoredEntryHasNoEffect(before: seq<Entry>, entry: Entry, after: seq<Entry>)
    requires entry.None? || !IsRecognizedKey(entry.value.0)
    ensures Collect(before + [entry] + after) == Collect(before + after)
  {
    if |after| == 0 {
      assert (before + [entry] + after)[..|before|] == before;
      assert before + after == before;
    } else {
      var init := after[..|after| - 1];
      IgnoredEntryHasNoEffect(before, entry, init);
      assert (before + [entry] + after)[..|before| + |after|] == before + [entry] + init;
      assert (before + after)[..|before| + |after| - 1] == before + init;
    }
  }

  /** A line without ':' contributes nothing. */
  lemma NoColonLineIgnored(line: string)
    requires ':' !in line
    ensures LineEntry(line).None?
  {
    TrimKeepsAbsent(line, ':');
    RemoveAllKeepsAbsent(Trim(line), '"', ':');
    SplitSeparatorFree(RemoveAll(Trim(line), '"'), ':');
  }

  /** A line gives an entry exactly when, trimmed and with its quotes deleted, it
      still holds a ':'. */
  lemma LineEntryPresent(line: string)
    ensures LineEntry(line).Some? <==> ':' in RemoveAll(Trim(line), '"')
  {
    var stripped := RemoveAll(Trim(line), '"');
    if ':' in stripped {
      SplitAtSeparator(stripped, ':');
    } else {
      SplitSeparatorFree(stripped, ':');
    }
  }

  /** Text without any ':' parses to the empty object. */
  lemma NoColonTextParsesEmpty(text: string)
    requires ':' !in text
    ensures Parse(text) == map[]
  {
    var lines := Split(text, '\n');
    var entries := Entries(lines);
    SplitPieces(text, '\n', ':');
    forall j | 0 <= j < |entries| ensures entries[j].None? {
      NoColonLineIgnored(lines[j]);
    }
    UnsetKeyAbsent(entries, NameKey);
    UnsetKeyAbsent(entries, EventIdKey);
  }

  // ---------------------------------------------------------------------------
  // The record the caller destructures, and re-rendering it

  /** `{ Name, "Event Id": EventId }`: the two fields, each possibly undefined. */
  datatype ScanRecord = ScanRecord(name: Option<string>, eventId: Option<string>)

  function Lookup(fields: Fields, k: string): Option<string> {
    if k in fields then Some(fields[k]) else None
  }

  /** The destructuring of the parser's object into the two fields. */
  function ToRecord(fields: Fields): (r: ScanRecord)
    ensures r.name.Some? <==> NameKey in fields
    ensures r.name.Some? ==> r.name.value == fields[NameKey]
    ensures r.eventId.Some? <==> EventIdKey in fields
    ensures r.eventId.Some? ==> r.eventId.value == fields[EventIdKey]
  {
    ScanRecord(Lookup(fields, NameKey), Lookup(fields, EventIdKey))
  }

  /** The line `key: value`. */
  function RenderLine(key: string, value: string): string {
    key + ": " + value
  }

  /** The record written back as `Name: X` / `Event Id: Y` lines, present fields only. */
  function Render(r: ScanRecord): string {
    Join(RenderLines(r), '\n')
  }

  /** The lines of a rendered record. */
  function RenderLines(r: ScanRecord): seq<string> {
    (if r.name.Some? then [RenderLine(NameKey, r.name.value)] else [])
    + (if r.eventId.Some? then [RenderLine(EventIdKey, r.eventId.value)] else [])
  }

  /** Both fields of the record hold clean values where present. */
  predicate IsCleanRecord(r: ScanRecord) {
    (r.name.Some? ==> IsCleanValue(r.name.value)) && (r.eventId.Some? ==> IsCleanValue(r.eventId.value))
  }

  /** The destructured record keeps everything the object holds. */
  lemma RecordKeepsFields(fields: Fields)
    requires forall k :: k in fields ==> IsRecognizedKey(k)
    ensures var r := ToRecord(fields);
            fields == (if r.name.Some? then map[NameKey := r.name.value] else map[])
                      + (if r.eventId.Some? then map[EventIdKey := r.eventId.value] else map[])
  {
  }

  /** What follows the ':' of a rendered line: a space and the value, or nothing
      once `trim` has removed the space before an empty value. */
  function SpacedValue(v: string): string {
    if |v| == 0 then [] else [' '] + v
  }

  /** The rendered line, trimmed and with its quotes deleted: the key, ':', and a
      space and the value when the value is not empty. */
  lemma RenderedLineTrimmed(k: string, v: string)
    requires IsCleanKey(k) && IsCleanValue(v)
    ensures RemoveAll(Trim(RenderLine(k, v)), '"') == k + [':'] + SpacedValue(v)
  {
    var line := RenderLine(k, v);
    var q := k + [':'] + SpacedValue(v);
    if |v| == 0 {
      assert line == q + [' '];
      assert TrimStart(line) == line;
      assert line[..|line| - 1] == q;
      assert TrimEnd(q) == q;
    } else {
      assert line == q;
      assert IsTrimmed(line);
    }
  }

  /** The pieces of a rendered line are the key and then the pieces of the value. */
  lemma RenderedLineParts(k: string, v: string)
    requires IsCleanKey(k) && IsCleanValue(v)
    ensures LineParts(RenderLine(k, v)) == [k] + Split(v, ':')
  {
    var tail := SpacedValue(v);
    RenderedLineTrimmed(k, v);
    SplitAfterPiece(k, ':', tail);
    assert LineParts(RenderLine(k, v)) == TrimPieces([k] + Split(tail, ':'));
    TrimRenderedPieces(k, v);
  }

  /** Trimming the pieces `k`, ` v0`, `v1`, ... of a rendered line gives `k` and the
      pieces `v0`, `v1`, ... of the value. */
  lemma TrimRenderedPieces(k: string, v: string)
    requires IsCleanKey(k) && IsCleanValue(v)
    ensures TrimPieces([k] + Split(SpacedValue(v), ':')) == [k] + Split(v, ':')
  {
    var s := Split(v, ':');
    if |v| > 0 {
      SplitAfterChar(' ', v, ':');
      assert Split(SpacedValue(v), ':') == [[' '] + s[0]] + s[1..];
      assert [k] + ([[' '] + s[0]] + s[1..]) == [k, [' '] + s[0]] + s[1..];
      TrimPiecesOfRendered(k, s);
    } else {
      assert [k] + Split(SpacedValue(v), ':') == [k, []];
      assert TrimPieces([k, []]) == [k, []];
    }
  }

  /** Trimming the pieces `k`, ` s0`, `s1`, ... of a rendered line. */
  lemma TrimPiecesOfRendered(k: string, s: seq<string>)
    requires |s| >= 1 && IsTrimmed(k)
    requires forall j :: 0 <= j < |s| ==> IsTrimmed(s[j])
    ensures TrimPieces([k, [' '] + s[0]] + s[1..]) == [k] + s
  {
    var parts := TrimPieces([k, [' '] + s[0]] + s[1..]);
    forall i | 0 <= i < |parts| ensures parts[i] == ([k] + s)[i] {
      TrimRenderedPiece(k, s, i);
      assert ([k] + s)[i] == if i == 0 then k else s[i - 1];
    }
  }

  /** One piece of `TrimPiecesOfRendered`. */
  lemma TrimRenderedPiece(k: string, s: seq<string>, i: nat)
    requires |s| >= 1 && IsTrimmed(k)
    requires forall j :: 0 <= j < |s| ==> IsTrimmed(s[j])
    requires i < |s| + 1
    ensures TrimPieces([k, [' '] + s[0]] + s[1..])[i] == if i == 0 then k else s[i - 1]
  {
    var pieces := [k, [' '] + s[0]] + s[1..];
    var p := pieces[i];
    assert TrimPieces(pieces)[i] == Trim(p);
    if i == 0 {
      assert p == k;
    } else if i == 1 {
      assert p == [' '] + s[0];
      TrimSpacedPiece(s[0]);
    } else {
      assert p == s[i - 1];
      assert IsTrimmed(s[i - 1]);
    }
  }

  /** The space after ':' is trimmed away from a trimmed piece. */
  lemma TrimSpacedPiece(x: string)
    requires IsTrimmed(x)
    ensures Trim([' '] + x) == x
  {
    TrimAfterWhitespace(' ', x);
  }

  /** A `key: value` line with a clean key and value is read back as exactly that pair. */
  lemma ParseRenderedLine(k: string, v: string)
    requires IsCleanKey(k) && IsCleanValue(v)
    ensures LineEntry(RenderLine(k, v)) == Some((k, v))
  {
    RenderedLineParts(k, v);
    var parts := LineParts(RenderLine(k, v));
    assert parts[1..] == Split(v, ':');
    JoinSplit(v, ':');
  }

  /** The entries a record renders to. */
  function RecordEntries(r: ScanRecord): seq<Entry> {
    (if r.name.Some? then [Some((NameKey, r.name.value))] else [])
    + (if r.eventId.Some? then [Some((EventIdKey, r.eventId.value))] else [])
  }

  /** The lines of a rendered record read back as the record's entries; a record
      with no field renders to the empty text, which is one empty line. */
  lemma RenderedEntries(r: ScanRecord)
    requires IsCleanRecord(r)
    ensures RecordEntries(r) != [] ==> Entries(Split(Render(r), '\n')) == RecordEntries(r)
    ensures RecordEntries(r) == [] ==> Entries(Split(Render(r), '\n')) == [None]
  {
    var lines := RenderLines(r);
    if |lines| == 0 {
      assert Split(Render(r), '\n') == [[]];
      NoColonLineIgnored([]);
    } else {
      RenderedLinesSplit(r);
      RenderedLinesEntries(r);
    }
  }

  /** Splitting a rendered record at line breaks gives its lines back. */
  lemma RenderedLinesSplit(r: ScanRecord)
    requires IsCleanRecord(r) && RenderLines(r) != []
    ensures Split(Render(r), '\n') == RenderLines(r)
  {
    CleanKeys();
    var lines := RenderLines(r);
    forall i | 0 <= i < |lines| ensures '\n' !in lines[i] {
    }
    SplitJoin(lines, '\n');
  }

  /** Each rendered line reads back as the field it was rendered from. */
  lemma RenderedLinesEntries(r: ScanRecord)
    requires IsCleanRecord(r)
    ensures Entries(RenderLines(r)) == RecordEntries(r)
  {
    CleanKeys();
    if r.name.Some? { ParseRenderedLine(NameKey, r.name.value); }
    if r.eventId.Some? { ParseRenderedLine(EventIdKey, r.eventId.value); }
  }

  /** Storing a record's entries gives back the record. */
  lemma CollectRecordEntries(r: ScanRecord)
    ensures ToRecord(Collect(RecordEntries(r))) == r
    ensures RecordEntries(r) == [] ==> ToRecord(Collect([None])) == r
  {
    var e := RecordEntries(r);
    var none: seq<Entry> := [None];
    assert none[..0] == [];
    if |e| == 2 {
      assert e[..1] == [Some((NameKey, r.name.value))];
      assert e[..1][..0] == [];
    } else if |e| == 1 {
      assert e[..0] == [];
    }
  }

  /** A rendered record with clean values parses back to the same record. */
  lemma ReparseRendered(r: ScanRecord)
    requires IsCleanRecord(r)
    ensures ToRecord(Parse(Render(r))) == r
  {
    RenderedEntries(r);
    CollectRecordEntries(r);
  }

  /** The two recognized keys can be written as `Key: Value` lines. */
  lemma CleanKeys()
    ensures IsCleanKey(NameKey) && IsCleanKey(EventIdKey)
  {
  }

  /** Re-rendering a parsed payload and parsing it again is a fixpoint, on the
      record and on the object. */
  lemma ParseIsFixpoint(text: string)
    ensures ToRecord(Parse(Render(ToRecord(Parse(text))))) == ToRecord(Parse(text))
    ensures Parse(Render(ToRecord(Parse(text)))) == Parse(text)
  {
    var fields := Parse(text);
    ParsedFieldsClean(text);
    var r := ToRecord(fields);
    ReparseRendered(r);
    RecordKeepsFields(fields);
    RecordKeepsFields(Parse(Render(r)));
  }

  /** The worked example: both lines are read. */
  lemma JaneDoeExample()
    ensures ToRecord(Parse("Name: Jane Doe\nEvent Id: EVT-42")) == ScanRecord(Some("Jane Doe"), Some("EVT-42"))
  {
    var r := ScanRecord(Some("Jane Doe"), Some("EVT-42"));
    JaneDoeRendered();
    JaneDoeClean();
    ReparseRendered(r);
  }

  /** The example text is the rendering of the example record. */
  lemma JaneDoeRendered()
    ensures Render(ScanRecord(Some("Jane Doe"), Some("EVT-42"))) == "Name: Jane Doe\nEvent Id: EVT-42"
  {
    JaneDoeLines();
    JoinTwo("Name: Jane Doe", "Event Id: EVT-42", '\n');
    assert "Name: Jane Doe" + ['\n'] + "Event Id: EVT-42" == "Name: Jane Doe\nEvent Id: EVT-42";
  }

  /** The two lines the example record renders to. */
  lemma JaneDoeLines()
    ensures RenderLines(ScanRecord(Some("Jane Doe"), Some("EVT-42"))) == ["Name: Jane Doe", "Event Id: EVT-42"]
  {
    assert RenderLine(NameKey, "Jane Doe") == "Name: Jane Doe";
    assert RenderLine(EventIdKey, "EVT-42") == "Event Id: EVT-42";
  }

  /** Joining two pieces puts one separator between them. */
  lemma JoinTwo(a: string, b: string, c: char)
    ensures Join([a, b], c) == a + [c] + b
  {
    assert [a, b][1..] == [b];
  }

  /** The example values are clean. */
  lemma JaneDoeClean()
    ensures IsCleanRecord(ScanRecord(Some("Jane Doe"), Some("EVT-42")))
  {
    PlainValueClean("Jane Doe");
    PlainValueClean("EVT-42");
  }

  /** A trimmed value without quote, ':' or line break is clean. */
  lemma PlainValueClean(v: string)
    requires '"' !in v && ':' !in v && '\n' !in v && IsTrimmed(v)
    ensures IsCleanValue(v)
  {
    SplitSeparatorFree(v, ':');
  }

  /** A payload without any `Key: Value` line gives both fields undefined. */
  lemma GarbageExample()
    ensures ToRecord(Parse("Garbage QR")) == ScanRecord(None, None)
  {
    NoColonTextParsesEmpty("Garbage QR");
  }

  /** A `key: value` line whose key is not recognized is read but not stored. */
  lemma UnrecognizedKeyIgnored(k: string, v: string)
    requires IsCleanKey(k) && !IsRecognizedKey(k) && IsCleanValue(v)
    ensures LineEntry(RenderLine(k, v)) == Some((k, v))
    ensures Parse(RenderLine(k, v)) == map[]
  {
    ParseRenderedLine(k, v);
    RenderedLineSingle(k, v);
    ParseSingleLine(RenderLine(k, v));
  }

  /** A rendered line holds no line break. */
  lemma RenderedLineSingle(k: string, v: string)
    requires IsCleanKey(k) && IsCleanValue(v)
    ensures '\n' !in RenderLine(k, v)
  {
  }

  /** Text without a line break is one line, and parses to what that line stores. */
  lemma ParseSingleLine(line: string)
    requires '\n' !in line
    ensures Parse(line) == Store(map[], LineEntry(line))
  {
    SplitSeparatorFree(line, '\n');
    SingleEntry(line);
    CollectSingle(LineEntry(line));
  }

  /** One line gives one entry. */
  lemma SingleEntry(line: string)
    ensures Entries([line]) == [LineEntry(line)]
  {
  }

  /** Storing one entry into the empty object. */
  lemma CollectSingle(entry: Entry)
    ensures Collect([entry]) == Store(map[], entry)
  {
    assert [entry][..0] == [];
  }

  /** Keys that differ from `Name` or `Event Id` only in case are not recognized. */
  lemma CaseVariantExample(v: string)
    requires IsCleanValue(v)
    ensures Parse(RenderLine("name", v)) == map[]
    ensures Parse(RenderLine("event id", v)) == map[]
  {
    CaseVariantKeys();
    UnrecognizedKeyIgnored("name", v);
    UnrecognizedKeyIgnored("event id", v);
  }

  /** The lower-case keys are well-formed but not recognized. */
  lemma CaseVariantKeys()
    ensures IsCleanKey("name") && !IsRecognizedKey("name")
    ensures IsCleanKey("event id") && !IsRecognizedKey("event id")
  {
  }

  // ---------------------------------------------------------------------------
  // Quoted and padded lines

  /** `key: "value"`: the value in quotes. */
  function QuotedValueLine(key: string, value: string): string {
    key + ": " + ['"'] + value + ['"']
  }

  /** `"key": "value"`: key and value in quotes. */
  function QuotedPairLine(key: string, value: string): string {
    ['"'] + key + ['"'] + ": " + ['"'] + value + ['"']
  }

  /** Deleting the quotes of `k: "v"` gives `k: v`. */
  lemma QuotedValueStripped(k: string, v: string)
    requires '"' !in k && '"' !in v
    ensures RemoveAll(QuotedValueLine(k, v), '"') == RenderLine(k, v)
  {
    QuoteAfterStripped(k + ": ", v);
  }

  /** Deleting the quotes of `"k": "v"` gives `k: v`. */
  lemma QuotedPairStripped(k: string, v: string)
    requires '"' !in k && '"' !in v
    ensures RemoveAll(QuotedPairLine(k, v), '"') == RenderLine(k, v)
  {
    var qt := ['"'];
    var head := qt + k + qt + ": ";
    RemoveAllChar('"', '"');
    RemoveAllAppend(qt, k, '"');
    assert RemoveAll(qt + k, '"') == k;
    RemoveAllAppend(qt + k, qt, '"');
    assert RemoveAll(qt + k + qt, '"') == k;
    assert '"' !in ": ";
    RemoveAllAppend(qt + k + qt, ": ", '"');
    assert RemoveAll(head, '"') == k + ": ";
    QuoteAfterStripped(head, v);
  }

  /** Deleting the quotes of `h"v"` deletes those of `h` and keeps `v`. */
  lemma QuoteAfterStripped(h: string, v: string)
    requires '"' !in v
    ensures RemoveAll(h + ['"'] + v + ['"'], '"') == RemoveAll(h, '"') + v
  {
    var qt := ['"'];
    RemoveAllChar('"', '"');
    var h1 := h + qt;
    RemoveAllAppend(h, qt, '"');
    assert RemoveAll(h1, '"') == RemoveAll(h, '"');
    var h2 := h1 + v;
    RemoveAllAppend(h1, v, '"');
    assert RemoveAll(h2, '"') == RemoveAll(h, '"') + v;
    RemoveAllAppend(h2, qt, '"');
  }

  /** A line that reads `k: v` (or `k:` and the space before an empty value
      trimmed away) once it is trimmed and its quotes are deleted carries exactly
      the pair `(k, v)`. */
  lemma StrippedLineReads(line: string, k: string, v: string)
    requires IsCleanKey(k) && IsCleanValue(v)
    requires RemoveAll(Trim(line), '"') in {RenderLine(k, v), k + [':'] + SpacedValue(v)}
    ensures LineEntry(line) == Some((k, v))
  {
    var stripped := RemoveAll(Trim(line), '"');
    if stripped == k + [':'] + SpacedValue(v) || |v| > 0 {
      RenderedLineTrimmed(k, v);
      assert stripped == RemoveAll(Trim(RenderLine(k, v)), '"');
      ParseRenderedLine(k, v);
      assert LineParts(line) == LineParts(RenderLine(k, v));
    } else {
      assert stripped == k + [':'] + " ";
      SplitAfterPiece(k, ':', " ");
      SplitSeparatorFree(" ", ':');
      TrimAfterWhitespace(' ', []);
      assert LineParts(line) == TrimPieces([k, " "]);
      assert TrimPieces([k, " "]) == [k, []];
      assert [k, []][1..] == [[]];
    }
  }

  /** The line `k: v`, `k: "v"` or `"k": "v"`, with any whitespace around it, is
      read as the key `k` and the value `v`, its quotes and the surrounding
      whitespace stripped. */
  lemma PaddedLineReads(p: string, k: string, v: string, q: string)
    requires IsCleanKey(k) && IsCleanValue(v) && IsBlank(p) && IsBlank(q)
    ensures LineEntry(p + RenderLine(k, v) + q) == Some((k, v))
    ensures LineEntry(p + QuotedValueLine(k, v) + q) == Some((k, v))
    ensures LineEntry(p + QuotedPairLine(k, v) + q) == Some((k, v))
  {
    PlainPaddedTrim(p, k, v, q);
    StrippedLineReads(p + RenderLine(k, v) + q, k, v);
    QuotedTrimmed(k, v);
    TrimPadded(p, QuotedValueLine(k, v), q);
    QuotedValueStripped(k, v);
    StrippedLineReads(p + QuotedValueLine(k, v) + q, k, v);
    TrimPadded(p, QuotedPairLine(k, v), q);
    QuotedPairStripped(k, v);
    StrippedLineReads(p + QuotedPairLine(k, v) + q, k, v);
  }

  /** `trim` of a padded `k: v` line leaves `k:` and, when the value is not empty,
      a space and the value. */
  lemma PlainPaddedTrim(p: string, k: string, v: string, q: string)
    requires IsCleanKey(k) && IsCleanValue(v) && IsBlank(p) && IsBlank(q)
    ensures Trim(p + RenderLine(k, v) + q) == k + [':'] + SpacedValue(v)
    ensures '"' !in k + [':'] + SpacedValue(v)
  {
    var t := k + [':'] + SpacedValue(v);
    assert t[0] == k[0];
    if |v| > 0 {
      assert RenderLine(k, v) == t;
      assert t[|t| - 1] == v[|v| - 1];
      TrimPadded(p, t, q);
    } else {
      assert p + RenderLine(k, v) + q == p + t + ([' '] + q);
      assert IsBlank([' '] + q) by {
        assert forall i :: 0 < i < |[' '] + q| ==> ([' '] + q)[i] == q[i - 1];
      }
      TrimPadded(p, t, [' '] + q);
    }
  }

  /** Both quoted forms of a clean pair start with a non-whitespace character and
      end with a quote. */
  lemma QuotedTrimmed(k: string, v: string)
    requires IsCleanKey(k)
    ensures |QuotedValueLine(k, v)| > 0 && IsTrimmed(QuotedValueLine(k, v))
    ensures |QuotedPairLine(k, v)| > 0 && IsTrimmed(QuotedPairLine(k, v))
  {
    var a := QuotedValueLine(k, v);
    assert a[0] == k[0] && a[|a| - 1] == '"';
    var b := QuotedPairLine(k, v);
    assert b[0] == '"' && b[|b| - 1] == '"';
  }

  /** A payload of a quoted `Name` line and a quoted `Event Id` line, in either
      quoted form, gives both values without their quotes. */
  lemma QuotedPayloadParses(name: string, eventId: string)
    requires IsCleanValue(name) && IsCleanValue(eventId)
    ensures ToRecord(Parse(QuotedValueLine(NameKey, name) + "\n" + QuotedValueLine(EventIdKey, eventId)))
            == ScanRecord(Some(name), Some(eventId))
    ensures ToRecord(Parse(QuotedPairLine(NameKey, name) + "\n" + QuotedPairLine(EventIdKey, eventId)))
            == ScanRecord(Some(name), Some(eventId))
  {
    CleanKeys();
    QuotedLineReads(NameKey, name);
    QuotedLineReads(EventIdKey, eventId);
    TwoLinePayload(QuotedValueLine(NameKey, name), QuotedValueLine(EventIdKey, eventId), name, eventId);
    TwoLinePayload(QuotedPairLine(NameKey, name), QuotedPairLine(EventIdKey, eventId), name, eventId);
  }

  /** The two quoted forms of a clean pair, without padding: one line each, read
      as the pair. */
  lemma QuotedLineReads(k: string, v: string)
    requires IsCleanKey(k) && IsCleanValue(v)
    ensures '\n' !in QuotedValueLine(k, v) && LineEntry(QuotedValueLine(k, v)) == Some((k, v))
    ensures '\n' !in QuotedPairLine(k, v) && LineEntry(QuotedPairLine(k, v)) == Some((k, v))
  {
    QuotedTrimmed(k, v);
    QuotedValueStripped(k, v);
    StrippedLineReads(QuotedValueLine(k, v), k, v);
    QuotedPairStripped(k, v);
    StrippedLineReads(QuotedPairLine(k, v), k, v);
    QuotedLinesSingle(k, v);
  }

  /** Neither quoted form of a clean pair holds a line break. */
  lemma QuotedLinesSingle(k: string, v: string)
    requires '\n' !in k && '\n' !in v
    ensures '\n' !in QuotedValueLine(k, v) && '\n' !in QuotedPairLine(k, v)
  {
  }

  /** Two lines that carry `Name` and `Event Id` give the record of both values. */
  lemma TwoLinePayload(a: string, b: string, name: string, eventId: string)
    requires '\n' !in a && '\n' !in b
    requires LineEntry(a) == Some((NameKey, name)) && LineEntry(b) == Some((EventIdKey, eventId))
    ensures ToRecord(Parse(a + "\n" + b)) == ScanRecord(Some(name), Some(eventId))
  {
    var r := ScanRecord(Some(name), Some(eventId));
    TwoLineSplit(a, b);
    assert Entries([a, b]) == [LineEntry(a), LineEntry(b)];
    assert RecordEntries(r) == [LineEntry(a), LineEntry(b)];
    CollectRecordEntries(r);
  }

  /** Two lines without a line break, joined by one, split back into the two. */
  lemma TwoLineSplit(a: string, b: string)
    requires '\n' !in a && '\n' !in b
    ensures Split(a + "\n" + b, '\n') == [a, b]
  {
    SplitAfterPiece(a, '\n', b);
    SplitSeparatorFree(b, '\n');
    assert a + "\n" + b == a + ['\n'] + b;
  }
}
