/** The entities of the checklist app (types.ts). Identifiers, names, dates
    and photos are strings; a photo is an opaque data URL. */
module Types {
  import opened Lists

  /** `ChecklistType`: the shift a checklist belongs to. */
  datatype ChecklistType = Abertura | Fechamento

  /** `ChecklistRecord['status']`. */
  datatype Status = Concluido | RevisaoSolicitada | Refeito

  datatype Sector = Sector(id: string, name: string, icon: string)

  /** The field `type` of types.ts is called `shiftType` here (`type` is a Dafny keyword). */
  datatype Task = Task(id: string, sectorId: string, shiftType: ChecklistType, description: string)

  datatype Employee = Employee(id: string, name: string, sectorId: string)

  type Photo = string

  datatype ChecklistRecord = ChecklistRecord(
    id: string,
    sectorId: string,
    employeeName: string,
    shiftType: ChecklistType,
    date: string,
    timestamp: int,
    completedTasks: seq<string>,
    taskPhotos: map<string, seq<Photo>>,
    notes: string,
    problemReport: string,
    photos: seq<Photo>,
    status: Status)

  /** Whether a task belongs to one sector and shift. */
  function InShift(sectorId: string, shift: ChecklistType): Task -> bool
  {
    (t: Task) => t.sectorId == sectorId && t.shiftType == shift
  }

  /** The catalog tasks of one sector and shift, in catalog order and each as often as
      the catalog lists it: the filter the composer shows and the report counts against. */
  function TasksFor(tasks: seq<Task>, sectorId: string, shift: ChecklistType): (r: seq<Task>)
    ensures forall t :: t in r <==> t in tasks && t.sectorId == sectorId && t.shiftType == shift
    ensures forall t ::
      multiset(r)[t] == if t.sectorId == sectorId && t.shiftType == shift then multiset(tasks)[t] else 0
    ensures IsSubseq(r, tasks)
    ensures |r| <= |tasks|
  {
    Filter(InShift(sectorId, shift), tasks)
  }

  /** Adding a task to the catalog appends it to its own sector and shift's list and
      leaves every other list as it was. */
  lemma TasksForAppend(tasks: seq<Task>, t: Task, sectorId: string, shift: ChecklistType)
    ensures TasksFor(tasks + [t], sectorId, shift)
         == TasksFor(tasks, sectorId, shift) + (if t.sectorId == sectorId && t.shiftType == shift then [t] else [])
  {
    FilterConcat(InShift(sectorId, shift), tasks, [t]);
  }

  /** `ids.map(t => t.id)`. */
  function Ids(tasks: seq<Task>): (r: seq<string>)
    ensures |r| == |tasks|
    ensures forall i :: 0 <= i < |tasks| ==> r[i] == tasks[i].id
  {
    Map((t: Task) => t.id, tasks)
  }
}
