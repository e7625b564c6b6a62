/** The data-access object (services/db.ts). The browser's `localStorage`,
    holding JSON text under four fixed keys, is modelled as a map from those
    keys to the lists they hold; serialisation is taken to round-trip. */
module Db {
  import opened Types
  import opened Lists
  import Seed

  /** The four storage keys. */
  datatype Key = SectorsKey | EmployeesKey | TasksKey | RecordsKey
  {
    function Name(): string
    {
      match this
      case SectorsKey => "cm_sectors"
      case EmployeesKey => "cm_employees"
      case TasksKey => "cm_tasks"
      case RecordsKey => "cm_records"
    }
  }

  /** What a key holds once written. */
  datatype Stored =
    | SectorList(sectors: seq<Sector>)
    | EmployeeList(employees: seq<Employee>)
    | TaskList(tasks: seq<Task>)
    | RecordList(records: seq<ChecklistRecord>)

  /** Every key holds the list of its own entity; only the DB writes these keys. */
  predicate WellTyped(m: map<Key, Stored>)
  {
    && (SectorsKey in m ==> m[SectorsKey].SectorList?)
    && (EmployeesKey in m ==> m[EmployeesKey].EmployeeList?)
    && (TasksKey in m ==> m[TasksKey].TaskList?)
    && (RecordsKey in m ==> m[RecordsKey].RecordList?)
  }

  /** `records.map(r => r.id === record.id ? record : r)`. */
  function UpdateById(records: seq<ChecklistRecord>, record: ChecklistRecord): (r: seq<ChecklistRecord>)
    ensures |r| == |records|
    ensures forall i :: 0 <= i < |records| ==>
      r[i] == if records[i].id == record.id then record else records[i]
  {
    Map((x: ChecklistRecord) => if x.id == record.id then record else x, records)
  }

  /** An update whose id matches no record changes nothing. */
  lemma UpdateMissingIsIdentity(records: seq<ChecklistRecord>, record: ChecklistRecord)
    requires forall x :: x in records ==> x.id != record.id
    ensures UpdateById(records, record) == records
  {
    var r := UpdateById(records, record);
    forall i | 0 <= i < |records| ensures r[i] == records[i] {
      assert records[i] in records;
    }
  }

  /** Updating twice with the same record is the same as updating once. */
  lemma UpdateIdempotent(records: seq<ChecklistRecord>, record: ChecklistRecord)
    ensures UpdateById(UpdateById(records, record), record) == UpdateById(records, record)
  {
  }

  /** An update whose id is present puts the new record in the list. */
  lemma UpdatePresentStores(records: seq<ChecklistRecord>, record: ChecklistRecord, i: nat)
    requires i < |records| && records[i].id == record.id
    ensures record in UpdateById(records, record)
  {
    assert UpdateById(records, record)[i] == record;
  }

  class Store {
    var storage: map<Key, Stored>

    ghost predicate Valid()
      reads this
    {
      WellTyped(storage)
    }

    /** A store over whatever the browser already holds. */
    constructor (initial: map<Key, Stored>)
      requires WellTyped(initial)
      ensures Valid() && storage == initial
      ensures initial == map[] ==>
        && GetSectors() == Seed.InitialSectors && GetTasks() == Seed.InitialTasks
        && GetEmployees() == Seed.InitialEmployees && GetRecords() == []
    {
      storage := initial;
    }

    /** `DB.getSectors`: the saved list, or the seed sectors when nothing was saved. */
    function GetSectors(): (s: seq<Sector>)
      reads this
      requires Valid()
      ensures SectorsKey !in storage ==> s == Seed.InitialSectors
      ensures SectorsKey in storage ==> s == storage[SectorsKey].sectors
    {
      if SectorsKey in storage then storage[SectorsKey].sectors else Seed.InitialSectors
    }

    /** `DB.getEmployees`: the saved list, or the seed employees. */
    function GetEmployees(): (s: seq<Employee>)
      reads this
      requires Valid()
      ensures EmployeesKey !in storage ==> s == Seed.InitialEmployees
      ensures EmployeesKey in storage ==> s == storage[EmployeesKey].employees
    {
      if EmployeesKey in storage then storage[EmployeesKey].employees else Seed.InitialEmployees
    }

    /** `DB.getTasks`: the saved list, or the seed tasks. */
    function GetTasks(): (s: seq<Task>)
      reads this
      requires Valid()
      ensures TasksKey !in storage ==> s == Seed.InitialTasks
      ensures TasksKey in storage ==> s == storage[TasksKey].tasks
    {
      if TasksKey in storage then storage[TasksKey].tasks else Seed.InitialTasks
    }

    /** `DB.getRecords`: the saved list, or no records at all. */
    function GetRecords(): (s: seq<ChecklistRecord>)
      reads this
      requires Valid()
      ensures RecordsKey !in storage ==> s == []
      ensures RecordsKey in storage ==> s == storage[RecordsKey].records
    {
      if RecordsKey in storage then storage[RecordsKey].records else []
    }

    /** `DB.saveSectors`: overwrites the sectors key, and only it. */
    method SaveSectors(sectors: seq<Sector>)
      requires Valid()
      modifies this
      ensures Valid()
      ensures storage == old(storage)[SectorsKey := SectorList(sectors)]
      ensures GetSectors() == sectors
      ensures GetTasks() == old(GetTasks()) && GetEmployees() == old(GetEmployees())
      ensures GetRecords() == old(GetRecords())
    {
      storage := storage[SectorsKey := SectorList(sectors)];
    }

    /** `DB.saveEmployees`: overwrites the employees key, and only it. */
    method SaveEmployees(employees: seq<Employee>)
      requires Valid()
      modifies this
      ensures Valid()
      ensures storage == old(storage)[EmployeesKey := EmployeeList(employees)]
      ensures GetEmployees() == employees
      ensures GetSectors() == old(GetSectors()) && GetTasks() == old(GetTasks())
      ensures GetRecords() == old(GetRecords())
    {
      storage := storage[EmployeesKey := EmployeeList(employees)];
    }

    /** `DB.saveTasks`: overwrites the tasks key, and only it. */
    method SaveTasks(tasks: seq<Task>)
      requires Valid()
      modifies this
      ensures Valid()
      ensures storage == old(storage)[TasksKey := TaskList(tasks)]
      ensures GetTasks() == tasks
      ensures GetSectors() == old(GetSectors()) && GetEmployees() == old(GetEmployees())
      ensures GetRecords() == old(GetRecords())
    {
      storage := storage[TasksKey := TaskList(tasks)];
    }

    /** `DB.saveRecord`: reads the records and writes them back with `record` in front. */
    method SaveRecord(record: ChecklistRecord)
      requires Valid()
      modifies this
      ensures Valid()
      ensures storage == old(storage)[RecordsKey := RecordList([record] + old(GetRecords()))]
      ensures GetRecords() == [record] + old(GetRecords())
      ensures |GetRecords()| == |old(GetRecords())| + 1 && GetRecords()[0] == record
      ensures GetRecords()[1..] == old(GetRecords())
      ensures GetSectors() == old(GetSectors()) && GetTasks() == old(GetTasks())
      ensures GetEmployees() == old(GetEmployees())
    {
      var records := GetRecords();
      var updated := [record] + records;
      storage := storage[RecordsKey := RecordList(updated)];
    }

    /** `DB.updateRecord`: rewrites the records key with every record of the same id
        replaced; an unknown id leaves the list as it was (the key is still written). */
    method UpdateRecord(record: ChecklistRecord)
      requires Valid()
      modifies this
      ensures Valid()
      ensures storage == old(storage)[RecordsKey := RecordList(UpdateById(old(GetRecords()), record))]
      ensures GetRecords() == UpdateById(old(GetRecords()), record)
      ensures (forall x :: x in old(GetRecords()) ==> x.id != record.id) ==> GetRecords() == old(GetRecords())
      ensures GetSectors() == old(GetSectors()) && GetTasks() == old(GetTasks())
      ensures GetEmployees() == old(GetEmployees())
    {
      var records := GetRecords();
      var updated := UpdateById(records, record);
      storage := storage[RecordsKey := RecordList(updated)];
      if forall x :: x in records ==> x.id != record.id {
        UpdateMissingIsIdentity(records, record);
      }
    }
  }

  /** The four keys are distinct strings, so no write can clobber another key. */
  lemma KeyNamesDistinct(a: Key, b: Key)
    ensures a != b ==> a.Name() != b.Name()
  {
  }
}
