/**
 * `SubjectsStorage`: records kept one per line in a text file, written as
 * name;surname;patronymic;passport;birthday and read back by splitting on ';'.
 * The file is modelled as its sequence of lines.
 */
module Storage {
  import opened Common
  import opened Text
  import opened Dates
  import opened Subjects

  /** The five fields `PutSubject` writes, in storage order. */
  function StorageFields(s: Subject): (r: seq<string>)
    ensures |r| == 5
  {
    [s.name, s.surname, PatronymicText(s.patronymic), LongText(s.passportNumber), FormatInvariant(s.birthday)]
  }

  /** The line `PutSubject` writes: the five fields joined by ';'. */
  function StorageLine(s: Subject): string {
    Join(StorageFields(s))
  }

  /** A record as it comes back from storage: a null patronymic was written as "". */
  function Stored(s: Subject): (r: Subject)
    ensures r.patronymic == Some(PatronymicText(s.patronymic))
    ensures r.name == s.name && r.surname == s.surname
    ensures r.passportNumber == s.passportNumber && r.birthday == s.birthday
  {
    s.(patronymic := Some(PatronymicText(s.patronymic)))
  }

  /** One pass of the `GetAllSubjects` loop: keep a line that has exactly five fields and constructs. */
  function ParseLine(cfg: Config, line: string): (r: Option<Subject>)
    ensures r.Some? <==> |Split(line)| == 5 && FieldsConstruct(cfg, Split(line))
    ensures r.Some? ==> r.value == FieldsRecord(Split(line))
    ensures r.Some? ==> ValidSubject(cfg, r.value) && r.value.patronymic.Some?
  {
    var f := Split(line);
    if |f| == 5 then
      NewSubject(cfg, Some(f[0]), Some(f[1]), Some(f[2]), Some(f[3]), Some(f[4])).ToOption()
    else
      None
  }

  /** What `GetAllSubjects` returns for the given lines: the accepted ones, in file order. */
  function ParseLines(cfg: Config, lines: seq<string>): (r: seq<Subject>)
    ensures |r| <= |lines|
    ensures forall s :: s in r ==> ValidSubject(cfg, s) && s.patronymic.Some?
    decreases |lines|
  {
    if lines == [] then []
    else
      var last := ParseLine(cfg, lines[|lines| - 1]);
      ParseLines(cfg, lines[..|lines| - 1]) + (if last.Some? then [last.value] else [])
  }

  /** The lines `PutSubject` writes for each record in turn. */
  function StorageLines(ss: seq<Subject>): (r: seq<string>)
    ensures |r| == |ss|
    decreases |ss|
  {
    if ss == [] then [] else StorageLines(ss[..|ss| - 1]) + [StorageLine(ss[|ss| - 1])]
  }

  /** The lines `PutSubjects` writes: each record's display form. */
  function DisplayLines(ss: seq<Subject>): (r: seq<string>)
    ensures |r| == |ss|
    decreases |ss|
  {
    if ss == [] then [] else DisplayLines(ss[..|ss| - 1]) + [DisplayString(ss[|ss| - 1])]
  }

  /** Each record in the form it reads back in. */
  function StoredForms(ss: seq<Subject>): (r: seq<Subject>)
    ensures |r| == |ss|
    decreases |ss|
  {
    if ss == [] then [] else StoredForms(ss[..|ss| - 1]) + [Stored(ss[|ss| - 1])]
  }

  // ---- The file as the storage object sees it ----

  class SubjectsStorage {
    /** Which copy of `Subject` this storage constructs when reading. */
    const cfg: Config
    /** The file's contents, one entry per line. */
    var lines: seq<string>
    /** How many lines the shared stream has already passed. */
    var position: nat

    predicate Valid()
      reads this
    {
      position <= |lines|
    }

    /** Opening an existing (or empty, freshly created) file: the stream starts at its beginning. */
    constructor (cfg: Config, file: seq<string>)
      ensures Valid()
      ensures this.cfg == cfg && lines == file && position == 0
    {
      this.cfg := cfg;
      lines := file;
      position := 0;
    }

    /** Appends the record's storage line and flushes; the stream is then at the end. */
    method PutSubject(s: Subject)
      requires Valid()
      modifies this
      ensures Valid()
      ensures lines == old(lines) + [StorageLine(s)]
      ensures position == |lines|
    {
      lines := lines + [StorageLine(s)];
      position := |lines|;
    }

    /** Appends each record's `ToString()` display form, then flushes once. */
    method PutSubjects(ss: seq<Subject>)
      requires Valid()
      modifies this
      ensures Valid()
      ensures lines == old(lines) + DisplayLines(ss)
      ensures position == |lines|
    {
      var i := 0;
      while i < |ss|
        invariant 0 <= i <= |ss|
        invariant lines == old(lines) + DisplayLines(ss[..i])
      {
        assert ss[..i + 1][..i] == ss[..i];
        assert DisplayLines(ss[..i + 1]) == DisplayLines(ss[..i]) + [DisplayString(ss[i])];
        lines := lines + [DisplayString(ss[i])];
        i := i + 1;
      }
      assert ss[..i] == ss;
      position := |lines|;
    }

    /** `PutSubjects` as it is evidently meant to work: the storage line of each record, one flush. */
    method PutSubjectsAsRecords(ss: seq<Subject>)
      requires Valid()
      modifies this
      ensures Valid()
      ensures lines == old(lines) + StorageLines(ss)
      ensures position == |lines|
    {
      var i := 0;
      while i < |ss|
        invariant 0 <= i <= |ss|
        invariant lines == old(lines) + StorageLines(ss[..i])
      {
        assert ss[..i + 1][..i] == ss[..i];
        assert StorageLines(ss[..i + 1]) == StorageLines(ss[..i]) + [StorageLine(ss[i])];
        lines := lines + [StorageLine(ss[i])];
        i := i + 1;
      }
      assert ss[..i] == ss;
      position := |lines|;
    }

    /**
     * The body of the reading loop for one line: split it, and construct a
     * record when there are exactly five fields; a rejected record is skipped.
     */
    method ReadRecord(line: string) returns (next: Option<Subject>)
      ensures next.Some? <==> |Split(line)| == 5 && FieldsConstruct(cfg, Split(line))
      ensures next.Some? ==> next.value == FieldsRecord(Split(line))
      ensures next == ParseLine(cfg, line)
    {
      var field := Split(line);
      next := None;
      if |field| == 5 {
        var constructed := NewSubject(cfg, Some(field[0]), Some(field[1]), Some(field[2]),
                                      Some(field[3]), Some(field[4]));
        if constructed.Success? {
          next := Some(constructed.value);
        }
      }
    }

    /**
     * Reads the lines from the stream's position to the end, keeping those
     * that split into five fields and construct. The stream is left at the
     * end, so a second call finds nothing.
     */
    method GetAllSubjects() returns (result: seq<Subject>)
      requires Valid()
      modifies this
      ensures Valid()
      ensures lines == old(lines) && position == |lines|
      ensures result == ParseLines(cfg, old(lines)[old(position)..])
    {
      var start := position;
      result := [];
      while position < |lines|
        invariant start <= position <= |lines|
        invariant lines == old(lines)
        invariant result == ParseLines(cfg, lines[start..position])
        decreases |lines| - position
      {
        var line := lines[position];
        ParseLinesStep(cfg, lines, start, position);
        var next := ReadRecord(line);
        if next.Some? {
          result := result + [next.value];
        }
        position := position + 1;
      }
      assert lines[start..position] == old(lines)[old(position)..];
    }
  }

  // ---- Properties of the storage format ----

  lemma StoredFieldsHaveNoSeparator(cfg: Config, s: Subject)
    requires ValidSubject(cfg, s)
    ensures forall i :: 0 <= i < 5 ==> Separator !in StorageFields(s)[i]
  {
    WellFormedNameHasNoSeparator(s.name);
    WellFormedNameHasNoSeparator(s.surname);
    if s.patronymic.Some? && s.patronymic.value != "" {
      WellFormedNameHasNoSeparator(s.patronymic.value);
    }
  }

  /** A stored line splits into exactly the five fields, in storage order. */
  lemma StorageLineFields(cfg: Config, s: Subject)
    requires ValidSubject(cfg, s)
    ensures Split(StorageLine(s)) == StorageFields(s)
  {
    StoredFieldsHaveNoSeparator(cfg, s);
    SplitJoin(StorageFields(s));
  }

  /** Reading back the line `PutSubject` wrote gives the same record. */
  lemma StorageRoundTrip(cfg: Config, s: Subject)
    requires ValidSubject(cfg, s)
    ensures ParseLine(cfg, StorageLine(s)) == Some(Stored(s))
  {
    StorageLineFields(cfg, s);
    ParseLongText(s.passportNumber);
    ParseFormatted(s.birthday);
  }

  lemma ParseLinesSnoc(cfg: Config, ls: seq<string>, line: string)
    ensures ParseLines(cfg, ls + [line]) ==
            ParseLines(cfg, ls) + (var p := ParseLine(cfg, line); if p.Some? then [p.value] else [])
  {
    assert (ls + [line])[..|ls|] == ls;
  }

  /** Reading one more line of a block adds that line's record, if it has one. */
  lemma ParseLinesStep(cfg: Config, lines: seq<string>, start: nat, position: nat)
    requires start <= position < |lines|
    ensures ParseLines(cfg, lines[start..position + 1]) ==
            ParseLines(cfg, lines[start..position])
            + (var p := ParseLine(cfg, lines[position]); if p.Some? then [p.value] else [])
  {
    assert lines[start..position + 1] == lines[start..position] + [lines[position]];
    ParseLinesSnoc(cfg, lines[start..position], lines[position]);
  }

  lemma {:induction false} ParseLinesAppend(cfg: Config, a: seq<string>, b: seq<string>)
    ensures ParseLines(cfg, a + b) == ParseLines(cfg, a) + ParseLines(cfg, b)
    decreases |b|
  {
    if b == [] {
      assert a + b == a;
    } else {
      var ab := a + b;
      assert ab[..|ab| - 1] == a + b[..|b| - 1];
      assert ab[|ab| - 1] == b[|b| - 1];
      ParseLinesAppend(cfg, a, b[..|b| - 1]);
    }
  }

  /** A line that is skipped leaves the rest of the file's records exactly as they were. */
  lemma SkippedLineIsHarmless(cfg: Config, before: seq<string>, line: string, after: seq<string>)
    requires ParseLine(cfg, line).None?
    ensures ParseLines(cfg, before + [line] + after) == ParseLines(cfg, before) + ParseLines(cfg, after)
  {
    ParseLinesAppend(cfg, before + [line], after);
    ParseLinesSnoc(cfg, before, line);
  }

  /** Writing valid records one by one and reading the file back yields them in the same order. */
  lemma {:induction false} ReadBackAll(cfg: Config, ss: seq<Subject>)
    requires forall s :: s in ss ==> ValidSubject(cfg, s)
    ensures ParseLines(cfg, StorageLines(ss)) == StoredForms(ss)
    decreases |ss|
  {
    if ss != [] {
      var init, last := ss[..|ss| - 1], ss[|ss| - 1];
      assert StorageLines(ss) == StorageLines(init) + [StorageLine(last)];
      ReadBackAll(cfg, init);
      StorageRoundTrip(cfg, last);
      ParseLinesSnoc(cfg, StorageLines(init), StorageLine(last));
    }
  }

  lemma {:induction false} StoredFormsOfParsed(cfg: Config, lines: seq<string>)
    ensures StoredForms(ParseLines(cfg, lines)) == ParseLines(cfg, lines)
    decreases |lines|
  {
    if lines != [] {
      var init := lines[..|lines| - 1];
      var last := ParseLine(cfg, lines[|lines| - 1]);
      StoredFormsOfParsed(cfg, init);
      if last.Some? {
        var r := ParseLines(cfg, lines);
        assert r == ParseLines(cfg, init) + [last.value];
        assert r[..|r| - 1] == ParseLines(cfg, init);
        assert r[|r| - 1] == last.value;
        assert Stored(last.value) == last.value;
        assert StoredForms(r) == StoredForms(ParseLines(cfg, init)) + [Stored(last.value)];
        assert StoredForms(r) == r;
      } else {
        assert ParseLines(cfg, lines) == ParseLines(cfg, init);
      }
    }
  }

  /** Appending a valid record's line to a file that reads back as `ss` makes it read back as `ss + [s]`. */
  lemma AppendedRecordReadsBack(cfg: Config, lines: seq<string>, ss: seq<Subject>, s: Subject)
    requires ParseLines(cfg, lines) == StoredForms(ss) && ValidSubject(cfg, s)
    ensures ParseLines(cfg, lines + [StorageLine(s)]) == StoredForms(ss + [s])
  {
    ParseLinesSnoc(cfg, lines, StorageLine(s));
    StorageRoundTrip(cfg, s);
    assert (ss + [s])[..|ss|] == ss;
  }

  /** Writing back what was read and reading again gives the same records. */
  lemma ResaveIsStable(cfg: Config, lines: seq<string>)
    ensures ParseLines(cfg, StorageLines(ParseLines(cfg, lines))) == ParseLines(cfg, lines)
  {
    ReadBackAll(cfg, ParseLines(cfg, lines));
    StoredFormsOfParsed(cfg, lines);
  }

  /** A display line holds no ';', so it never has five fields and is always skipped. */
  lemma DisplayLineIsSkipped(cfg: Config, s: Subject)
    requires WellFormedName(s.name) && WellFormedName(s.surname) && PatronymicAllowed(s.patronymic)
    ensures ParseLine(cfg, DisplayString(s)) == None
  {
    WellFormedNameHasNoSeparator(s.name);
    WellFormedNameHasNoSeparator(s.surname);
    if s.patronymic.Some? && s.patronymic.value != "" {
      WellFormedNameHasNoSeparator(s.patronymic.value);
    }
    assert Separator !in DisplayString(s);
    SplitNoSeparator(DisplayString(s));
  }

  /** Nothing `PutSubjects` writes is ever read back. */
  lemma {:induction false} DisplayLinesAreSkipped(cfg: Config, ss: seq<Subject>)
    requires forall s :: s in ss ==> ValidSubject(cfg, s)
    ensures ParseLines(cfg, DisplayLines(ss)) == []
    decreases |ss|
  {
    if ss != [] {
      var init, last := ss[..|ss| - 1], ss[|ss| - 1];
      assert last in ss;
      assert forall s :: s in init ==> s in ss;
      DisplayLinesAreSkipped(cfg, init);
      DisplayLineIsSkipped(cfg, last);
      ParseLinesSnoc(cfg, DisplayLines(init), DisplayString(last));
    }
  }

  /** The desktop `TryParse` reads a stored line; the console one wants six fields and never does. */
  lemma TryParseOnStoredLines(s: Subject, t: Subject)
    requires ValidSubject(Desktop, s) && ValidSubject(Console, t)
    ensures TryParseDesktop(StorageLine(s)) == Some(Stored(s))
    ensures TryParseConsole(StorageLine(t)) == None
  {
    StorageRoundTrip(Desktop, s);
    StorageLineFields(Console, t);
  }

  /** A record the console copy stored with a passport below 0101000001 is skipped by the desktop copy. */
  lemma ConsoleRecordSkippedByDesktop(s: Subject)
    requires ValidSubject(Console, s) && s.passportNumber < Desktop.minPassportNumber
    ensures ParseLine(Console, StorageLine(s)) == Some(Stored(s))
    ensures ParseLine(Desktop, StorageLine(s)) == None
  {
    StorageRoundTrip(Console, s);
    StorageLineFields(Console, s);
    ParseLongText(s.passportNumber);
  }
}
