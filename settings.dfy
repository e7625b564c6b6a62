/** The catalog administration page (components/Settings.tsx): sectors are added
    through a prompt and removed after a confirmation; tasks are added through a
    small form and removed after a confirmation. Every change replaces the page's
    list and saves it whole. `prompt()` and `confirm()` answers, the clock-based
    sector id and the random task id are parameters. */
module Settings {
  import opened Types
  import opened Lists
  import opened Text
  import opened Db

  datatype Tab = Setores | Tarefas

  /** Every state variable of the page, as one value. */
  datatype SettingsState = SettingsState(
    sectors: seq<Sector>,
    tasks: seq<Task>,
    activeTab: Tab,
    newTaskDesc: string,
    newTaskSector: string,
    newTaskType: ChecklistType)

  /** The icon every sector added here gets. */
  const NewSectorIcon: string := "📁"

  /** `sectors.filter(s => s.id !== id)`: every sector with that id goes, the others
      stay in order and as often as they were listed; an unknown id changes nothing. */
  function WithoutSector(sectors: seq<Sector>, id: string): (r: seq<Sector>)
    ensures forall s :: s in r <==> s in sectors && s.id != id
    ensures forall s :: multiset(r)[s] == if s.id != id then multiset(sectors)[s] else 0
    ensures IsSubseq(r, sectors)
    ensures (forall s :: s in sectors ==> s.id != id) <==> r == sectors
  {
    var p := (s: Sector) => s.id != id;
    FilterShrinks(p, sectors);
    if forall s :: s in sectors ==> s.id != id then
      FilterKeepsAll(p, sectors);
      Filter(p, sectors)
    else Filter(p, sectors)
  }

  /** `tasks.filter(t => t.id !== id)`: every task with that id goes, the others
      stay in order and as often as they were listed; an unknown id changes nothing. */
  function WithoutTask(tasks: seq<Task>, id: string): (r: seq<Task>)
    ensures forall t :: t in r <==> t in tasks && t.id != id
    ensures forall t :: multiset(r)[t] == if t.id != id then multiset(tasks)[t] else 0
    ensures IsSubseq(r, tasks)
    ensures (forall t :: t in tasks ==> t.id != id) <==> r == tasks
  {
    var p := (t: Task) => t.id != id;
    FilterShrinks(p, tasks);
    if forall t :: t in tasks ==> t.id != id then
      FilterKeepsAll(p, tasks);
      Filter(p, tasks)
    else Filter(p, tasks)
  }

  /** Removing a task removes it from the composer's list of every sector and shift,
      and keeps the rest of that list in order. */
  lemma RemovedTaskLeavesChecklists(tasks: seq<Task>, id: string, sectorId: string, shift: ChecklistType)
    ensures forall t :: t in TasksFor(WithoutTask(tasks, id), sectorId, shift) <==>
      t in TasksFor(tasks, sectorId, shift) && t.id != id
    ensures TasksFor(WithoutTask(tasks, id), sectorId, shift)
         == Filter((t: Task) => t.id != id, TasksFor(tasks, sectorId, shift))
  {
    FilterCommute((t: Task) => t.id != id, InShift(sectorId, shift), tasks);
  }

  class SettingsView {
    const db: Store
    var sectors: seq<Sector>
    var tasks: seq<Task>
    var activeTab: Tab
    var newTaskDesc: string
    var newTaskSector: string
    var newTaskType: ChecklistType

    function State(): SettingsState
      reads this
    {
      SettingsState(sectors, tasks, activeTab, newTaskDesc, newTaskSector, newTaskType)
    }

    ghost predicate Valid()
      reads this, db
    {
      db.Valid()
    }

    /** Mounting: catalog loaded, sectors tab, empty task form with "ABERTURA". */
    constructor (db: Store)
      requires db.Valid()
      ensures Valid() && this.db == db
      ensures State() == SettingsState(db.GetSectors(), db.GetTasks(), Setores, "", "", Abertura)
    {
      this.db := db;
      sectors := db.GetSectors();
      tasks := db.GetTasks();
      activeTab := Setores;
      newTaskDesc := "";
      newTaskSector := "";
      newTaskType := Abertura;
    }

    /** The task list, newest first: the stored order reversed. */
    function ListedTasks(): (r: seq<Task>)
      reads this
      ensures |r| == |tasks|
      ensures forall i :: 0 <= i < |tasks| ==> r[i] == tasks[|tasks| - 1 - i]
      ensures tasks != [] ==> r[0] == tasks[|tasks| - 1]
    {
      Reverse(tasks)
    }

    method SetTab(tab: Tab)
      requires Valid()
      modifies this
      ensures Valid()
      ensures State() == old(State()).(activeTab := tab)
    {
      activeTab := tab;
    }

    method SetNewTaskDesc(text: string)
      requires Valid()
      modifies this
      ensures Valid()
      ensures State() == old(State()).(newTaskDesc := text)
    {
      newTaskDesc := text;
    }

    method SetNewTaskSector(id: string)
      requires Valid()
      modifies this
      ensures Valid()
      ensures State() == old(State()).(newTaskSector := id)
    {
      newTaskSector := id;
    }

    method SetNewTaskType(ty: ChecklistType)
      requires Valid()
      modifies this
      ensures Valid()
      ensures State() == old(State()).(newTaskType := ty)
    {
      newTaskType := ty;
    }

    /** `addSector`: a cancelled (`None`) or empty answer changes nothing; any other
        name, untrimmed, becomes one new sector at the end, which is saved. */
    method AddSector(answer: Option<string>, newId: string)
      requires Valid()
      modifies this, db
      ensures Valid()
      ensures answer.None? || answer.value == "" ==>
        State() == old(State()) && db.storage == old(db.storage)
      ensures answer.Some? && answer.value != "" ==>
        && State() == old(State()).(sectors := old(sectors) + [Sector(newId, answer.value, NewSectorIcon)])
        && db.GetSectors() == sectors
      ensures db.GetTasks() == old(db.GetTasks()) && db.GetRecords() == old(db.GetRecords())
      ensures db.GetEmployees() == old(db.GetEmployees())
    {
      if answer.None? || answer.value == "" {
        return;
      }
      var newSectors := sectors + [Sector(newId, answer.value, NewSectorIcon)];
      sectors := newSectors;
      db.SaveSectors(newSectors);
    }

    /** `removeSector`: declined, nothing changes; confirmed, every sector with that id
        leaves the page and the store. Tasks and records are not touched. */
    method RemoveSector(id: string, confirmed: bool)
      requires Valid()
      modifies this, db
      ensures Valid()
      ensures !confirmed ==> State() == old(State()) && db.storage == old(db.storage)
      ensures confirmed ==>
        State() == old(State()).(sectors := WithoutSector(old(sectors), id)) && db.GetSectors() == sectors
      ensures db.GetTasks() == old(db.GetTasks()) && db.GetRecords() == old(db.GetRecords())
      ensures db.GetEmployees() == old(db.GetEmployees())
    {
      if !confirmed {
        return;
      }
      var filtered := WithoutSector(sectors, id);
      sectors := filtered;
      db.SaveSectors(filtered);
    }

    /** `addTask`: a blank description or no chosen sector changes nothing; otherwise
        a task with the trimmed description and the chosen sector and shift goes at
        the end and is saved, and only the description field is cleared. */
    method AddTask(newId: string)
      requires Valid()
      modifies this, db
      ensures Valid()
      ensures IsBlank(old(newTaskDesc)) || old(newTaskSector) == "" ==>
        State() == old(State()) && db.storage == old(db.storage)
      ensures !IsBlank(old(newTaskDesc)) && old(newTaskSector) != "" ==>
        && State() == old(State()).(
             tasks := old(tasks) + [Task(newId, old(newTaskSector), old(newTaskType), Trim(old(newTaskDesc)))],
             newTaskDesc := "")
        && db.GetTasks() == tasks
      ensures db.GetSectors() == old(db.GetSectors()) && db.GetRecords() == old(db.GetRecords())
      ensures db.GetEmployees() == old(db.GetEmployees())
    {
      var desc, sector := newTaskDesc, newTaskSector;
      var blank := IsBlank(desc);
      if blank || sector == "" {
        return;
      }
      assert desc == old(newTaskDesc) && sector == old(newTaskSector) && !IsBlank(desc);
      ghost var before := State();
      var newTask := Task(newId, sector, newTaskType, Trim(desc));
      var updatedTasks := tasks + [newTask];
      tasks := updatedTasks;
      newTaskDesc := "";
      assert State() == before.(tasks := updatedTasks, newTaskDesc := "");
      db.SaveTasks(updatedTasks);
    }

    /** `removeTask`: declined, nothing changes; confirmed, every task with that id
        leaves the page and the store. */
    method RemoveTask(id: string, confirmed: bool)
      requires Valid()
      modifies this, db
      ensures Valid()
      ensures !confirmed ==> State() == old(State()) && db.storage == old(db.storage)
      ensures confirmed ==>
        State() == old(State()).(tasks := WithoutTask(old(tasks), id)) && db.GetTasks() == tasks
      ensures db.GetSectors() == old(db.GetSectors()) && db.GetRecords() == old(db.GetRecords())
      ensures db.GetEmployees() == old(db.GetEmployees())
    {
      if !confirmed {
        return;
      }
      var filtered := WithoutTask(tasks, id);
      tasks := filtered;
      db.SaveTasks(filtered);
    }
  }
}
