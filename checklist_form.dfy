/** The checklist composer (components/ChecklistForm.tsx): a two-step form.
    Step 1 picks the sector, the shift and the operator's name; step 2 ticks
    tasks, attaches photos per task and in general, takes notes and a problem
    report, and submits one record to the store. The component's React state
    is the `Form` class; each handler is a method, and the computations the
    handlers feed to their state setters are the pure functions below. */
module ChecklistForm {
  import opened Types
  import opened Lists
  import opened Text
  import opened Db

  /** Every state variable of the component, as one value. */
  datatype FormState = FormState(
    sectors: seq<Sector>,
    allTasks: seq<Task>,
    step: nat,
    selectedSector: string,
    selectedType: Option<ChecklistType>,
    employeeName: string,
    completedTaskIds: seq<string>,
    taskPhotos: map<string, seq<Photo>>,
    notes: string,
    problemReport: string,
    generalPhotos: seq<Photo>,
    isSubmitting: bool,
    activeTaskIdForUpload: Option<string>)

  /** The condition that enables "next step" and lets a submit through:
      a sector, a shift and a name that is not blank once trimmed. */
  predicate CanProceed(st: FormState)
  {
    st.selectedSector != "" && st.selectedType.Some? && !IsBlank(st.employeeName)
  }

  /** The gate opens exactly when a sector and a shift are chosen and the name has
      at least one character that is not whitespace. */
  lemma CanProceedIff(st: FormState)
    ensures CanProceed(st) <==>
      && st.selectedSector != ""
      && st.selectedType.Some?
      && exists i :: 0 <= i < |st.employeeName| && !IsSpace(st.employeeName[i])
  {
    BlankIffAllSpace(st.employeeName);
  }

  /** `currentTasks`: the catalog tasks of the selected sector and shift, in catalog
      order and each as often as the catalog lists it; no shift chosen yet matches no task. */
  function CurrentTasks(st: FormState): (r: seq<Task>)
    ensures forall t :: t in r <==>
      t in st.allTasks && t.sectorId == st.selectedSector && st.selectedType == Some(t.shiftType)
    ensures forall t ::
      multiset(r)[t] == if t.sectorId == st.selectedSector && st.selectedType == Some(t.shiftType)
                        then multiset(st.allTasks)[t] else 0
    ensures IsSubseq(r, st.allTasks)
    ensures st.selectedType.Some? ==> r == TasksFor(st.allTasks, st.selectedSector, st.selectedType.value)
  {
    match st.selectedType
    case None => []
    case Some(ty) => TasksFor(st.allTasks, st.selectedSector, ty)
  }

  /** `toggleTask`'s update: a present id is removed (every occurrence) and the other
      ids stay in order, each as often as before; an absent one is appended. */
  function Toggle(ids: seq<string>, id: string): (r: seq<string>)
    ensures id in r <==> id !in ids
    ensures forall x :: x != id ==> (x in r <==> x in ids)
    ensures id !in ids ==> r == ids + [id]
    ensures id in ids ==> |r| < |ids|
    ensures id in ids ==> IsSubseq(r, ids)
    ensures id in ids ==> forall x :: multiset(r)[x] == if x != id then multiset(ids)[x] else 0
  {
    if id in ids then
      var r := Filter((x: string) => x != id, ids);
      FilterShrinks((x: string) => x != id, ids);
      r
    else ids + [id]
  }

  /** Toggling the same task twice restores which ids are completed, and restores the
      list itself when the task was not completed before. */
  lemma ToggleTwice(ids: seq<string>, id: string)
    ensures forall x :: x in Toggle(Toggle(ids, id), id) <==> x in ids
    ensures id !in ids ==> Toggle(Toggle(ids, id), id) == ids
  {
    if id !in ids {
      var p := (x: string) => x != id;
      FilterConcat(p, ids, [id]);
      FilterKeepsAll(p, ids);
      assert Filter(p, [id]) == [];
    }
  }

  /** One photo load for a task: the photo goes at the end of that task's list
      (an absent list counts as empty); every other task's list is untouched. */
  function AttachPhoto(m: map<string, seq<Photo>>, taskId: string, p: Photo): (r: map<string, seq<Photo>>)
    ensures taskId in r && r[taskId] == Lookup(m, taskId) + [p]
    ensures forall k :: k != taskId ==> (k in r <==> k in m)
    ensures forall k :: k != taskId && k in m ==> r[k] == m[k]
  {
    m[taskId := Lookup(m, taskId) + [p]]
  }

  /** The photo map after the loads of `ps` for one task, in order. */
  function AttachPhotos(m: map<string, seq<Photo>>, taskId: string, ps: seq<Photo>): (r: map<string, seq<Photo>>)
    ensures ps == [] ==> r == m
    ensures ps != [] ==> taskId in r && r[taskId] == Lookup(m, taskId) + ps
    ensures forall k :: k != taskId ==> (k in r <==> k in m)
    ensures forall k :: k != taskId && k in m ==> r[k] == m[k]
  {
    if ps == [] then m else m[taskId := Lookup(m, taskId) + ps]
  }

  /** Loading one more photo extends the batch. */
  lemma AttachPhotosStep(m: map<string, seq<Photo>>, taskId: string, ps: seq<Photo>, p: Photo)
    ensures AttachPhoto(AttachPhotos(m, taskId, ps), taskId, p) == AttachPhotos(m, taskId, ps + [p])
  {
    if ps != [] {
      assert Lookup(m, taskId) + ps + [p] == Lookup(m, taskId) + (ps + [p]);
    } else {
      assert ps + [p] == [p];
    }
  }

  /** `n` copies of `x`. */
  function Repeat(x: string, n: nat): (r: seq<string>)
    ensures |r| == n
    ensures forall i :: 0 <= i < n ==> r[i] == x
  {
    if n == 0 then [] else Repeat(x, n - 1) + [x]
  }

  /** The ids that `n` photo loads for `taskId` append: every load tests the list
      captured when the files were picked, so an uncompleted task is appended once
      per photo, a completed one never. */
  function AutoCompleted(stale: seq<string>, taskId: string, n: nat): (r: seq<string>)
    ensures taskId in stale ==> r == []
    ensures taskId !in stale ==> |r| == n && forall x :: x in r ==> x == taskId
    ensures taskId !in stale && n > 0 ==> taskId in r
  {
    if taskId in stale then [] else Repeat(taskId, n)
  }

  /** The record `handleSubmit` saves for form state `st`, given the generated id,
      today's date string and the clock. */
  function NewRecord(st: FormState, id: string, today: string, now: int): (r: ChecklistRecord)
    requires st.selectedType.Some?
    ensures r.id == id && r.date == today && r.timestamp == now
    ensures r.sectorId == st.selectedSector && r.shiftType == st.selectedType.value
    ensures r.employeeName == Trim(st.employeeName)
    ensures r.completedTasks == st.completedTaskIds && r.taskPhotos == st.taskPhotos
    ensures r.notes == st.notes && r.problemReport == st.problemReport
    ensures r.photos == st.generalPhotos
    ensures r.status == Concluido
  {
    ChecklistRecord(id, st.selectedSector, Trim(st.employeeName), st.selectedType.value,
                    today, now, st.completedTaskIds, st.taskPhotos, st.notes,
                    st.problemReport, st.generalPhotos, Concluido)
  }

  class Form {
    const db: Store
    var sectors: seq<Sector>
    var allTasks: seq<Task>
    var step: nat
    var selectedSector: string
    var selectedType: Option<ChecklistType>
    var employeeName: string
    var completedTaskIds: seq<string>
    var taskPhotos: map<string, seq<Photo>>
    var notes: string
    var problemReport: string
    var generalPhotos: seq<Photo>
    var isSubmitting: bool
    var activeTaskIdForUpload: Option<string>

    function State(): FormState
      reads this
    {
      FormState(sectors, allTasks, step, selectedSector, selectedType, employeeName,
                completedTaskIds, taskPhotos, notes, problemReport, generalPhotos,
                isSubmitting, activeTaskIdForUpload)
    }

    /** The step is 1 or 2, and step 2 is only ever entered through the gate. */
    ghost predicate Valid()
      reads this, db
    {
      && db.Valid()
      && (step == 1 || step == 2)
      && (step == 2 ==> CanProceed(State()))
    }

    /** Mounting: empty form on step 1, catalog loaded from the store. */
    constructor (db: Store)
      requires db.Valid()
      ensures Valid() && this.db == db
      ensures State() == FormState(db.GetSectors(), db.GetTasks(), 1, "", None, "",
                                   [], map[], "", "", [], false, None)
    {
      this.db := db;
      sectors := db.GetSectors();
      allTasks := db.GetTasks();
      step := 1;
      selectedSector := "";
      selectedType := None;
      employeeName := "";
      completedTaskIds := [];
      taskPhotos := map[];
      notes := "";
      problemReport := "";
      generalPhotos := [];
      isSubmitting := false;
      activeTaskIdForUpload := None;
    }

    /** The sector buttons (rendered on step 1 only). The completed ids are kept. */
    method SelectSector(id: string)
      requires Valid() && step == 1
      modifies this
      ensures Valid()
      ensures State() == old(State()).(selectedSector := id)
    {
      selectedSector := id;
    }

    /** The shift buttons (step 1 only). */
    method SelectType(ty: ChecklistType)
      requires Valid() && step == 1
      modifies this
      ensures Valid()
      ensures State() == old(State()).(selectedType := Some(ty))
    {
      selectedType := Some(ty);
    }

    /** The name field (step 1 only); stored untrimmed. */
    method SetEmployeeName(name: string)
      requires Valid() && step == 1
      modifies this
      ensures Valid()
      ensures State() == old(State()).(employeeName := name)
    {
      employeeName := name;
    }

    method SetNotes(text: string)
      requires Valid()
      modifies this
      ensures Valid()
      ensures State() == old(State()).(notes := text)
    {
      notes := text;
    }

    method SetProblemReport(text: string)
      requires Valid()
      modifies this
      ensures Valid()
      ensures State() == old(State()).(problemReport := text)
    {
      problemReport := text;
    }

    /** "Next step": disabled unless the gate holds. */
    method Proceed()
      requires Valid()
      modifies this
      ensures Valid()
      ensures State() == if CanProceed(old(State())) then old(State()).(step := 2) else old(State())
    {
      if selectedSector != "" && selectedType.Some? && !IsBlank(employeeName) {
        step := 2;
      }
    }

    /** "Back": returns to step 1 and keeps everything else, completed ids included. */
    method Back()
      requires Valid()
      modifies this
      ensures Valid()
      ensures State() == old(State()).(step := 1)
    {
      step := 1;
    }

    /** `toggleTask`. */
    method ToggleTask(id: string)
      requires Valid()
      modifies this
      ensures Valid()
      ensures State() == old(State()).(completedTaskIds := Toggle(old(completedTaskIds), id))
    {
      completedTaskIds := Toggle(completedTaskIds, id);
    }

    /** `handleTaskPhotoUpload`: remembers the task; opening the file picker is I/O. */
    method HandleTaskPhotoUpload(taskId: string)
      requires Valid()
      modifies this
      ensures Valid()
      ensures State() == old(State()).(activeTaskIdForUpload := Some(taskId))
    {
      activeTaskIdForUpload := Some(taskId);
    }

    /** `onTaskFileChange`, with the picked files already read as data URLs and each
        reader's callback run in file order. Every callback appends its photo to the
        task's list and, if the task was not completed when the files were picked,
        appends the task's id. Without a task to attach to, nothing happens. */
    method OnTaskFileChange(files: seq<Photo>)
      requires Valid()
      modifies this
      ensures Valid()
      ensures old(activeTaskIdForUpload).None? || old(activeTaskIdForUpload).value == "" ==>
        State() == old(State())
      ensures old(activeTaskIdForUpload).Some? && old(activeTaskIdForUpload).value != "" ==>
        var t := old(activeTaskIdForUpload).value;
        State() == old(State()).(
          taskPhotos := AttachPhotos(old(taskPhotos), t, files),
          completedTaskIds := old(completedTaskIds) + AutoCompleted(old(completedTaskIds), t, |files|))
      ensures old(activeTaskIdForUpload).Some? && old(activeTaskIdForUpload).value != "" && files != [] ==>
        old(activeTaskIdForUpload).value in completedTaskIds
    {
      if activeTaskIdForUpload.Some? && activeTaskIdForUpload.value != "" {
        var taskId := activeTaskIdForUpload.value;
        var stale := completedTaskIds;
        for i := 0 to |files|
          invariant taskPhotos == AttachPhotos(old(taskPhotos), taskId, files[..i])
          invariant completedTaskIds == stale + AutoCompleted(stale, taskId, i)
          invariant State() == old(State()).(taskPhotos := taskPhotos, completedTaskIds := completedTaskIds)
        {
          AttachPhotosStep(old(taskPhotos), taskId, files[..i], files[i]);
          assert files[..i + 1] == files[..i] + [files[i]];
          taskPhotos := AttachPhoto(taskPhotos, taskId, files[i]);
          if taskId !in stale {
            completedTaskIds := completedTaskIds + [taskId];
          }
        }
        assert files[..|files|] == files;
      }
    }

    /** The ✕ on a task photo (shown only for a task that has photos). The completed
        ids are not touched: removing a photo does not un-complete the task. */
    method RemoveTaskPhoto(taskId: string, idx: nat)
      requires Valid() && taskId in taskPhotos
      modifies this
      ensures Valid()
      ensures State() == old(State()).(taskPhotos := old(taskPhotos)[taskId := RemoveAt(old(taskPhotos)[taskId], idx)])
    {
      taskPhotos := taskPhotos[taskId := RemoveAt(taskPhotos[taskId], idx)];
    }

    /** `handleGeneralPhotoUpload`, the loads run in file order. */
    method HandleGeneralPhotoUpload(files: seq<Photo>)
      requires Valid()
      modifies this
      ensures Valid()
      ensures State() == old(State()).(generalPhotos := old(generalPhotos) + files)
    {
      for i := 0 to |files|
        invariant State() == old(State()).(generalPhotos := old(generalPhotos) + files[..i])
      {
        assert files[..i + 1] == files[..i] + [files[i]];
        generalPhotos := generalPhotos + [files[i]];
      }
      assert files[..|files|] == files;
    }

    /** The ✕ on a general photo. */
    method RemoveGeneralPhoto(idx: nat)
      requires Valid()
      modifies this
      ensures Valid()
      ensures State() == old(State()).(generalPhotos := RemoveAt(old(generalPhotos), idx))
    {
      generalPhotos := RemoveAt(generalPhotos, idx);
    }

    /** "Mark all": the completed list becomes the current tasks' ids, in order. */
    method MarkAll()
      requires Valid()
      modifies this
      ensures Valid()
      ensures State() == old(State()).(completedTaskIds := Ids(CurrentTasks(old(State()))))
    {
      var current := match selectedType
        case None => []
        case Some(ty) => TasksFor(allTasks, selectedSector, ty);
      completedTaskIds := Ids(current);
    }

    /** `handleSubmit`: with the gate failing nothing happens; otherwise exactly one
        record, built from the form, is put in front of the stored records and the
        form is marked as submitting. The delayed navigation is not modelled. */
    method HandleSubmit(id: string, today: string, now: int) returns (saved: bool)
      requires Valid()
      modifies this, db
      ensures Valid()
      ensures saved == CanProceed(old(State()))
      ensures !saved ==> State() == old(State()) && db.storage == old(db.storage)
      ensures saved ==> State() == old(State()).(isSubmitting := true)
      ensures saved ==> db.GetRecords() == [NewRecord(old(State()), id, today, now)] + old(db.GetRecords())
      ensures db.GetSectors() == old(db.GetSectors()) && db.GetTasks() == old(db.GetTasks())
      ensures db.GetEmployees() == old(db.GetEmployees())
    {
      if selectedSector == "" || selectedType.None? || IsBlank(employeeName) {
        return false;
      }
      isSubmitting := true;
      var record := ChecklistRecord(id, selectedSector, Trim(employeeName), selectedType.value,
                                    today, now, completedTaskIds, taskPhotos, notes,
                                    problemReport, generalPhotos, Concluido);
      db.SaveRecord(record);
      saved := true;
    }
  }
}
