/** The manager's report view (components/Reports.tsx): the list of submitted
    records, a detail view with the conformance figure and per-task evidence,
    and the two review buttons that change a record's status. */
module Reports {
  import opened Types
  import opened Lists
  import opened Db

  /** `records.find(r => r.id === id)`: the first record with that id. */
  function FindById(records: seq<ChecklistRecord>, id: string): (r: Option<ChecklistRecord>)
    ensures r.None? <==> forall x :: x in records ==> x.id != id
    ensures r.Some? ==> r.value in records && r.value.id == id
    ensures r.Some? ==> exists i :: (0 <= i < |records| && records[i] == r.value
      && forall j :: 0 <= j < i ==> records[j].id != id)
  {
    Find((x: ChecklistRecord) => x.id == id, records)
  }

  /** The store's record list after `handleReview(id, status)` found its record in `view`. */
  function Reviewed(stored: seq<ChecklistRecord>, view: seq<ChecklistRecord>, id: string, status: Status): (r: seq<ChecklistRecord>)
    ensures FindById(view, id).None? ==> r == stored
    ensures |r| == |stored|
    ensures forall i :: 0 <= i < |stored| && stored[i].id != id ==> r[i] == stored[i]
    ensures FindById(view, id).Some? ==> forall i :: 0 <= i < |stored| && stored[i].id == id ==>
      r[i] == FindById(view, id).value.(status := status)
  {
    match FindById(view, id)
    case None => stored
    case Some(rec) =>
      var r := UpdateById(stored, rec.(status := status));
      assert forall i :: 0 <= i < |stored| && stored[i].id == id ==> r[i] == rec.(status := status);
      r
  }

  /** No two records share an id (the ids are random, and the app relies on that). */
  predicate DistinctIds(records: seq<ChecklistRecord>)
  {
    forall i, j :: 0 <= i < j < |records| ==> records[i].id != records[j].id
  }

  /** With distinct ids and the view equal to the store, a review changes the status
      of the reviewed record and no other field of any record. */
  lemma ReviewChangesOnlyStatus(records: seq<ChecklistRecord>, id: string, status: Status)
    requires DistinctIds(records)
    ensures var r := Reviewed(records, records, id, status);
      |r| == |records| &&
      forall i :: 0 <= i < |records| ==>
        r[i] == if records[i].id == id then records[i].(status := status) else records[i]
  {
    var r := Reviewed(records, records, id, status);
    match FindById(records, id)
    case None =>
    case Some(rec) =>
      forall i | 0 <= i < |records| && records[i].id == id
        ensures r[i] == records[i].(status := status)
      {
        var k :| 0 <= k < |records| && records[k] == rec;
        assert k == i;
      }
  }

  /** The two review buttons. */
  datatype ReviewAction = RequestRedo | Approve

  /** The status each button sets; neither ever sets `REFEITO`. */
  function ReviewStatus(a: ReviewAction): (s: Status)
    ensures s != Refeito
    ensures s == Concluido <==> a == Approve
  {
    match a
    case RequestRedo => RevisaoSolicitada
    case Approve => Concluido
  }

  /** A record's applicable tasks: the catalog tasks of its sector and shift, in catalog
      order and each as often as the catalog lists it; their number is the conformance
      denominator. */
  function ApplicableTasks(tasks: seq<Task>, rec: ChecklistRecord): (r: seq<Task>)
    ensures forall t :: t in r <==> t in tasks && t.sectorId == rec.sectorId && t.shiftType == rec.shiftType
    ensures forall t ::
      multiset(r)[t] == if t.sectorId == rec.sectorId && t.shiftType == rec.shiftType then multiset(tasks)[t] else 0
    ensures IsSubseq(r, tasks)
    ensures |r| <= |tasks|
  {
    TasksFor(tasks, rec.sectorId, rec.shiftType)
  }

  /** What the conformance box shows: a whole percentage, or `Infinity%` when some ids
      are completed but the record's sector and shift have no task. */
  datatype Conformance = Percent(value: nat) | InfinitePercent

  /** `Math.round(completed / applicable * 100 || 0)`, in exact arithmetic: zero
      completed shows 0 (for 0/0 the NaN falls back to 0); otherwise the percentage
      rounded to the nearest integer, halves up. */
  function ConformanceOf(completed: nat, applicable: nat): (c: Conformance)
    ensures completed == 0 ==> c == Percent(0)
    ensures applicable == 0 && completed > 0 ==> c == InfinitePercent
    ensures applicable > 0 ==>
      (c.Percent? && 2 * applicable * c.value <= 200 * completed + applicable < 2 * applicable * (c.value + 1))
  {
    if completed == 0 then Percent(0)
    else if applicable == 0 then InfinitePercent
    else
      var v := (200 * completed + applicable) / (2 * applicable);
      DivBounds(200 * completed + applicable, 2 * applicable);
      Percent(v)
  }

  lemma DivBounds(a: nat, b: nat)
    requires b > 0
    ensures b * (a / b) <= a < b * (a / b + 1)
  {
  }

  lemma MulCancelLt(d: int, p: int, q: int)
    requires d > 0 && d * p < d * q
    ensures p < q
  {
  }

  /** The conformance never exceeds 100% when no more ids are completed than tasks are
      applicable, and it is 100% when every applicable task is counted. (Rounding also
      shows 100% for, say, 299 of 300.) */
  lemma ConformanceAtMost100(completed: nat, applicable: nat)
    requires completed <= applicable
    ensures ConformanceOf(completed, applicable).Percent?
    ensures ConformanceOf(completed, applicable).value <= 100
    ensures 0 < applicable && completed == applicable ==> ConformanceOf(completed, applicable).value == 100
  {
    if applicable > 0 {
      var v := ConformanceOf(completed, applicable).value;
      var d := 2 * applicable;
      assert d * v < d * 101;
      MulCancelLt(d, v, 101);
      if completed == applicable {
        assert d * 100 < d * (v + 1);
        MulCancelLt(d, 100, v + 1);
      }
    }
  }

  /** The conformance figure of the detail view, as written: every completed id
      counts, applicable or not. */
  function RecordConformance(rec: ChecklistRecord, tasks: seq<Task>): (c: Conformance)
    ensures rec.completedTasks == [] ==> c == Percent(0)
    ensures c == ConformanceOf(|rec.completedTasks|, |ApplicableTasks(tasks, rec)|)
  {
    ConformanceOf(|rec.completedTasks|, |ApplicableTasks(tasks, rec)|)
  }

  /** Whether a task's id is among the record's completed ids. */
  function DoneIn(rec: ChecklistRecord): Task -> bool
  {
    (t: Task) => t.id in rec.completedTasks
  }

  /** The applicable tasks that the record marks completed, in catalog order and each
      as often as it is applicable. */
  function CompletedApplicable(rec: ChecklistRecord, tasks: seq<Task>): (r: seq<Task>)
    ensures |r| <= |ApplicableTasks(tasks, rec)|
    ensures forall t :: t in r <==> t in ApplicableTasks(tasks, rec) && t.id in rec.completedTasks
    ensures forall t ::
      multiset(r)[t] == if t.id in rec.completedTasks then multiset(ApplicableTasks(tasks, rec))[t] else 0
    ensures IsSubseq(r, ApplicableTasks(tasks, rec))
  {
    Filter(DoneIn(rec), ApplicableTasks(tasks, rec))
  }

  /** Conformance counted over the applicable tasks shown as completed: never more
      than 100%, never `Infinity%`. */
  function CorrectedConformance(rec: ChecklistRecord, tasks: seq<Task>): (c: Conformance)
    ensures c == ConformanceOf(|CompletedApplicable(rec, tasks)|, |ApplicableTasks(tasks, rec)|)
    ensures c.Percent? && c.value <= 100
    ensures 0 < |ApplicableTasks(tasks, rec)| == |CompletedApplicable(rec, tasks)| ==> c.value == 100
    ensures |CompletedApplicable(rec, tasks)| == 0 ==> c.value == 0
  {
    var n := |CompletedApplicable(rec, tasks)|;
    var a := |ApplicableTasks(tasks, rec)|;
    ConformanceAtMost100(n, a);
    ConformanceOf(n, a)
  }

  /** Two bar tasks of the opening shift. */
  const ExampleBar: seq<Task> := [Task("b-o-1", "2", Abertura, "a"), Task("b-o-2", "2", Abertura, "b")]

  /** An opening record for the bar carrying four kitchen task ids. */
  const ExampleRecord: ChecklistRecord := ChecklistRecord("r", "2", "Ana", Abertura, "2024-01-01", 0,
    ["k-o-1", "k-o-2", "k-o-3", "k-o-4"], map[], "", "", [], Concluido)

  /** Both bar tasks apply to the example record. */
  lemma ExampleApplicable()
    ensures ApplicableTasks(ExampleBar, ExampleRecord) == ExampleBar
  {
    FilterKeepsAll(InShift("2", Abertura), ExampleBar);
  }

  /** None of the example record's ids is a bar task. */
  lemma ExampleNoneDone()
    ensures CompletedApplicable(ExampleRecord, ExampleBar) == []
  {
    ExampleApplicable();
    var done := DoneIn(ExampleRecord);
    assert !done(ExampleBar[0]) && !done(ExampleBar[1]);
    assert forall t :: t in ExampleBar ==> !done(t);
    FilterEmpty(done, ExampleBar);
  }

  /** A record whose completed ids came from another sector (the form keeps them when
      the operator goes back and changes sector): 4 kitchen ids against 2 bar tasks
      read as 200%, while the corrected figure is 0%. */
  lemma ConformanceOver100Example()
    ensures RecordConformance(ExampleRecord, ExampleBar) == Percent(200)
    ensures CorrectedConformance(ExampleRecord, ExampleBar) == Percent(0)
  {
    ExampleApplicable();
    ExampleNoneDone();
  }

  /** One row of "evidence per task". */
  datatype TaskLine = TaskLine(task: Task, completed: bool, photos: seq<Photo>)

  /** The evidence rows: one per applicable task, in catalog order, completed exactly
      when its id is in the record, with the task's photos or none. */
  function TaskLines(rec: ChecklistRecord, tasks: seq<Task>): (r: seq<TaskLine>)
    ensures |r| == |ApplicableTasks(tasks, rec)|
    ensures forall i :: 0 <= i < |r| ==>
      && r[i].task == ApplicableTasks(tasks, rec)[i]
      && (r[i].completed <==> r[i].task.id in rec.completedTasks)
      && r[i].photos == Lookup(rec.taskPhotos, r[i].task.id)
  {
    Map((t: Task) => TaskLine(t, t.id in rec.completedTasks, Lookup(rec.taskPhotos, t.id)),
        ApplicableTasks(tasks, rec))
  }

  class ReportsView {
    const db: Store
    var records: seq<ChecklistRecord>
    var sectors: seq<Sector>
    var tasks: seq<Task>
    var selectedRecord: Option<ChecklistRecord>

    ghost predicate Valid()
      reads this, db
    {
      db.Valid()
    }

    /** Mounting: records, sectors and tasks loaded from the store, nothing selected. */
    constructor (db: Store)
      requires db.Valid()
      ensures Valid() && this.db == db
      ensures records == db.GetRecords() && sectors == db.GetSectors() && tasks == db.GetTasks()
      ensures selectedRecord == None
    {
      this.db := db;
      records := db.GetRecords();
      sectors := db.GetSectors();
      tasks := db.GetTasks();
      selectedRecord := None;
    }

    /** Clicking a record opens its detail view. */
    method Open(rec: ChecklistRecord)
      requires Valid()
      modifies this
      ensures Valid()
      ensures selectedRecord == Some(rec)
      ensures records == old(records) && sectors == old(sectors) && tasks == old(tasks)
    {
      selectedRecord := Some(rec);
    }

    /** The ✕ of the detail view. */
    method Close()
      requires Valid()
      modifies this
      ensures Valid()
      ensures selectedRecord == None
      ensures records == old(records) && sectors == old(sectors) && tasks == old(tasks)
    {
      selectedRecord := None;
    }

    /** `handleReview`: an id missing from the view changes nothing. Otherwise the view's
        record with the new status replaces every stored record of that id, the view is
        reloaded from the store, and the open record follows if it is the reviewed one. */
    method HandleReview(id: string, status: Status)
      requires Valid()
      modifies this, db
      ensures Valid()
      ensures sectors == old(sectors) && tasks == old(tasks)
      ensures db.GetSectors() == old(db.GetSectors()) && db.GetTasks() == old(db.GetTasks())
      ensures db.GetEmployees() == old(db.GetEmployees())
      ensures FindById(old(records), id).None? ==>
        records == old(records) && selectedRecord == old(selectedRecord) && db.storage == old(db.storage)
      ensures FindById(old(records), id).Some? ==>
        var updated := FindById(old(records), id).value.(status := status);
        && db.GetRecords() == UpdateById(old(db.GetRecords()), updated)
        && db.GetRecords() == Reviewed(old(db.GetRecords()), old(records), id, status)
        && records == db.GetRecords()
        && selectedRecord == if old(selectedRecord).Some? && old(selectedRecord).value.id == id
                             then Some(updated) else old(selectedRecord)
    {
      var found := FindById(records, id);
      if found.None? {
        return;
      }
      var updated := found.value.(status := status);
      db.UpdateRecord(updated);
      records := db.GetRecords();
      if selectedRecord.Some? && selectedRecord.value.id == id {
        selectedRecord := Some(updated);
      }
    }

    /** The two buttons of the detail view act on the open record. No review ever gives
        a stored record the status `REFEITO` that it did not have before. */
    method ReviewSelected(action: ReviewAction)
      requires Valid() && selectedRecord.Some?
      modifies this, db
      ensures Valid()
      ensures forall x :: x in db.GetRecords() && x.status == Refeito ==> x in old(db.GetRecords())
      ensures sectors == old(sectors) && tasks == old(tasks)
      ensures db.GetSectors() == old(db.GetSectors()) && db.GetTasks() == old(db.GetTasks())
      ensures db.GetEmployees() == old(db.GetEmployees())
      ensures FindById(old(records), old(selectedRecord).value.id).None? ==>
        records == old(records) && selectedRecord == old(selectedRecord) && db.storage == old(db.storage)
      ensures FindById(old(records), old(selectedRecord).value.id).Some? ==>
        && db.GetRecords() == Reviewed(old(db.GetRecords()), old(records), old(selectedRecord).value.id, ReviewStatus(action))
        && records == db.GetRecords()
        && selectedRecord == Some(FindById(old(records), old(selectedRecord).value.id).value.(status := ReviewStatus(action)))
        && selectedRecord.value.status == ReviewStatus(action)
    {
      var before := db.GetRecords();
      var selected := selectedRecord.value;
      HandleReview(selected.id, ReviewStatus(action));
      forall x | x in db.GetRecords() && x.status == Refeito ensures x in before {
        var i :| 0 <= i < |db.GetRecords()| && db.GetRecords()[i] == x;
      }
    }
  }
}
