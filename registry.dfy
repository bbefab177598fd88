/**
 * The registry: `AppModel` in Model.cs and the static collection of
 * `Program` in Program.cs. Its records are read from storage at start-up,
 * every record added to it is appended to storage by the collection-changed
 * handler, and the sorted export turns it into CSV lines.
 */
module Registry {
  import opened Common
  import opened Text
  import opened Dates
  import opened Subjects
  import opened Storage
  import opened Export

  class AppModel {
    /** Which copy of the program this is. */
    const cfg: Config
    const storage: SubjectsStorage
    /** The records held in memory, in insertion order. */
    var subjects: seq<Subject>

    /**
     * Every record is valid, the stream is at the end of the file, and
     * reading the file again would give exactly the records held in memory.
     */
    ghost predicate Valid()
      reads this, storage
    {
      && (cfg == Desktop || cfg == Console)
      && storage.Valid() && storage.cfg == cfg
      && storage.position == |storage.lines|
      && (forall s :: s in subjects ==> ValidSubject(cfg, s))
      && ParseLines(cfg, storage.lines) == StoredForms(subjects)
    }

    /** Opens the storage file and seeds the collection with everything `GetAllSubjects` reads. */
    constructor (cfg: Config, file: seq<string>)
      requires cfg == Desktop || cfg == Console
      ensures Valid() && this.cfg == cfg && fresh(storage)
      ensures storage.lines == file
      ensures subjects == ParseLines(cfg, file)
    {
      this.cfg := cfg;
      var store := new SubjectsStorage(cfg, file);
      var read := store.GetAllSubjects();
      storage := store;
      subjects := read;
      new;
      assert file[0..] == file;
      StoredFormsOfParsed(cfg, file);
    }

    /** `Subjects.Add` followed by the handler's `PutSubject`. */
    method Add(s: Subject)
      requires Valid() && ValidSubject(cfg, s)
      modifies this, storage
      ensures Valid()
      ensures subjects == old(subjects) + [s]
      ensures storage.lines == old(storage.lines) + [StorageLine(s)]
    {
      AppendedRecordReadsBack(cfg, storage.lines, subjects, s);
      subjects := subjects + [s];
      storage.PutSubject(s);
    }

    /**
     * `SortAndSaveSubjects`: the lines the export writes, one CSV line per
     * record in the order of the four sort keys.
     */
    method SortAndSaveSubjects() returns (csv: seq<string>)
      requires Valid()
      ensures |csv| == |subjects|
      ensures forall i :: 0 <= i < |csv| ==> ConvertToCsvString(OrderByKeys(subjects)[i]) == Some(csv[i])
    {
      var sorted := OrderByKeys(subjects);
      forall s | s in sorted ensures ConvertToCsvString(s).Some? {
        assert s in multiset(sorted);
        assert s in multiset(subjects);
        ValidRecordConverts(cfg, s);
      }
      csv := SaveToCsv(sorted);
    }
  }
}
