/** Properties that span components: what the composer submits is what the report
    and the dashboard show, and what the catalog page removes is what they miss. */
module Scenarios {
  import opened Types
  import opened Lists
  import opened Db
  import opened ChecklistForm
  import opened Reports
  import opened Dashboard
  import opened Settings
  import Seed

  /** A submitted record's applicable tasks are the tasks the composer listed. */
  lemma ApplicableIsCurrent(st: FormState, id: string, today: string, now: int)
    requires st.selectedType.Some?
    ensures ApplicableTasks(st.allTasks, NewRecord(st, id, today, now)) == CurrentTasks(st)
  {
  }

  /** Every applicable task has its row in the report's evidence list. */
  lemma RowOfApplicable(rec: ChecklistRecord, tasks: seq<Task>, task: Task)
    requires task in ApplicableTasks(tasks, rec)
    ensures var lines := TaskLines(rec, tasks);
      exists i :: 0 <= i < |lines| && lines[i].task == task
        && (lines[i].completed <==> task.id in rec.completedTasks)
        && lines[i].photos == Lookup(rec.taskPhotos, task.id)
  {
    var applicable := ApplicableTasks(tasks, rec);
    var i :| 0 <= i < |applicable| && applicable[i] == task;
    assert TaskLines(rec, tasks)[i].task == task;
  }

  /** After photos are attached to a listed task and the form is submitted, the report
      shows that task as completed, with its earlier photos followed by the new ones. */
  lemma AttachedPhotosShownInReport(st: FormState, task: Task, files: seq<Photo>,
                                    id: string, today: string, now: int)
    requires st.selectedType.Some? && task in CurrentTasks(st) && files != []
    ensures var after := st.(
              taskPhotos := AttachPhotos(st.taskPhotos, task.id, files),
              completedTaskIds := st.completedTaskIds + AutoCompleted(st.completedTaskIds, task.id, |files|));
      var lines := TaskLines(NewRecord(after, id, today, now), st.allTasks);
      exists i :: 0 <= i < |lines| && lines[i].task == task && lines[i].completed
        && lines[i].photos == Lookup(st.taskPhotos, task.id) + files
  {
    var photos := AttachPhotos(st.taskPhotos, task.id, files);
    var completed := st.completedTaskIds + AutoCompleted(st.completedTaskIds, task.id, |files|);
    var after := st.(taskPhotos := photos, completedTaskIds := completed);
    var rec := NewRecord(after, id, today, now);
    ApplicableIsCurrent(after, id, today, now);
    assert task.id in completed by {
      if task.id !in st.completedTaskIds {
        assert task.id in AutoCompleted(st.completedTaskIds, task.id, |files|);
      }
    }
    assert Lookup(photos, task.id) == Lookup(st.taskPhotos, task.id) + files;
    RowOfApplicable(rec, st.allTasks, task);
  }

  /** "Mark all" followed by a submit, with the catalog unchanged, gives a record the report
      shows as 100% conformant with every task completed. */
  lemma MarkAllIsFullConformance(st: FormState, id: string, today: string, now: int)
    requires st.selectedType.Some? && CurrentTasks(st) != []
    ensures var rec := NewRecord(st.(completedTaskIds := Ids(CurrentTasks(st))), id, today, now);
      && RecordConformance(rec, st.allTasks) == Percent(100)
      && CorrectedConformance(rec, st.allTasks) == Percent(100)
      && forall line :: line in TaskLines(rec, st.allTasks) ==> line.completed
  {
    var marked := st.(completedTaskIds := Ids(CurrentTasks(st)));
    var rec := NewRecord(marked, id, today, now);
    ApplicableIsCurrent(marked, id, today, now);
    var applicable := ApplicableTasks(st.allTasks, rec);
    assert rec.completedTasks == Ids(applicable);
    ConformanceAtMost100(|applicable|, |applicable|);
    forall t | t in applicable ensures t.id in rec.completedTasks {
      var k :| 0 <= k < |applicable| && applicable[k] == t;
      assert rec.completedTasks[k] == t.id;
    }
    AllApplicableDone(rec, st.allTasks);
  }

  /** When every applicable task is marked completed, the corrected count is all of them
      and every evidence row shows as completed. */
  lemma AllApplicableDone(rec: ChecklistRecord, tasks: seq<Task>)
    requires forall t :: t in ApplicableTasks(tasks, rec) ==> t.id in rec.completedTasks
    ensures CompletedApplicable(rec, tasks) == ApplicableTasks(tasks, rec)
    ensures forall line :: line in TaskLines(rec, tasks) ==> line.completed
  {
    var applicable := ApplicableTasks(tasks, rec);
    FilterKeepsAll(DoneIn(rec), applicable);
    var lines := TaskLines(rec, tasks);
    forall line | line in lines ensures line.completed {
      var i :| 0 <= i < |lines| && lines[i] == line;
      assert applicable[i] in applicable;
    }
  }

  /** Going back and changing the sector keeps the completed ids, so a submitted record
      can list a task of another sector as completed: the operator ticked it, but the
      report never shows it. */
  lemma BackKeepsStaleIds(st: FormState, otherSector: string)
    requires st.selectedType.Some? && CurrentTasks(st) != [] && otherSector != st.selectedSector
    ensures var marked := st.(completedTaskIds := Ids(CurrentTasks(st)));
      var moved := marked.(step := 1).(selectedSector := otherSector);
      var rec := NewRecord(moved, "r", "d", 0);
      && CurrentTasks(st)[0].id in rec.completedTasks
      && CurrentTasks(st)[0] !in ApplicableTasks(st.allTasks, rec)
  {
    var current := CurrentTasks(st);
    assert current[0] in current;
    assert Ids(current)[0] == current[0].id;
  }

  /** A removed sector's records show up under the fallback badge. */
  lemma RemovedSectorShowsUnknown(sectors: seq<Sector>, rec: ChecklistRecord)
    ensures SectorBadge(WithoutSector(sectors, rec.sectorId), rec.sectorId) == Badge("📁", "Desconhecido")
  {
  }

  /** The name used in the seed walk-through passes the blank-name gate unchanged. */
  lemma AlexIsNotBlank()
    ensures !Text.IsBlank("Alex") && Text.Trim("Alex") == "Alex"
  {
    var name := "Alex";
    assert name[0] == 'A' && name[|name| - 1] == 'x';
    Text.UntrimmableIsFixed(name);
  }

  /** The composer, the store and the report together on the seed catalog: sector "1",
      opening shift, one task ticked and photographed, then submitted. */
  method SeedScenario()
  {
    var db := new Store(map[]);
    var form := new Form(db);
    form.SelectSector("1");
    form.SelectType(Abertura);
    form.SetEmployeeName("Alex");
    AlexIsNotBlank();
    assert form.employeeName == "Alex" && form.selectedSector == "1" && form.selectedType == Some(Abertura);
    assert CanProceed(form.State());
    form.Proceed();
    assert form.step == 2 && form.completedTaskIds == [];
    TickPhotographSubmit(form);
  }

  method TickPhotographSubmit(form: Form)
    requires form.Valid() && form.step == 2 && form.completedTaskIds == [] && form.selectedSector == "1"
    requires form.db.GetRecords() == []
    modifies form, form.db
  {
    form.ToggleTask("k-o-1");
    assert form.completedTaskIds == ["k-o-1"];
    form.HandleTaskPhotoUpload("k-o-1");
    form.OnTaskFileChange(["data:image/png;base64,AAAA"]);
    assert form.completedTaskIds == ["k-o-1"];
    assert form.step == 2 && CanProceed(form.State());
    var saved := form.HandleSubmit("r1", "2024-05-01", 1714560000000);
    assert saved;
    var records := form.db.GetRecords();
    assert |records| == 1 && records[0].completedTasks == ["k-o-1"];
    assert records[0].status == Concluido && records[0].sectorId == "1";
    Review(form.db);
  }

  method Review(db: Store)
    requires db.Valid() && |db.GetRecords()| == 1
    modifies db
  {
    var view := new ReportsView(db);
    var id := view.records[0].id;
    view.Open(view.records[0]);
    assert FindById(view.records, id).Some?;
    view.ReviewSelected(RequestRedo);
    assert |view.records| == 1 && view.records[0].id == id;
    assert view.records[0].status == RevisaoSolicitada;
  }
}
