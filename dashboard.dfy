/** The dashboard (components/Dashboard.tsx): figures computed from the loaded
    records and sectors for one calendar day. `today` is the `YYYY-MM-DD` string
    the browser clock gives. */
module Dashboard {
  import opened Types
  import opened Lists

  /** Whether a record is dated `today`. */
  function OfDay(today: string): ChecklistRecord -> bool
  {
    (x: ChecklistRecord) => x.date == today
  }

  /** `todayRecords`: the records dated today, in their stored order (newest first),
      each as often as it is stored; one per stored position dated today. */
  function TodayRecords(records: seq<ChecklistRecord>, today: string): (r: seq<ChecklistRecord>)
    ensures forall x :: x in r <==> x in records && x.date == today
    ensures forall x :: multiset(r)[x] == if x.date == today then multiset(records)[x] else 0
    ensures IsSubseq(r, records)
    ensures |r| == |set i | 0 <= i < |records| && records[i].date == today|
    ensures |r| <= |records|
  {
    var p := OfDay(today);
    assert forall x :: p(x) == (x.date == today);
    FilterCount(p, records);
    assert Positions(p, records) == set i | 0 <= i < |records| && records[i].date == today;
    Filter(p, records)
  }

  /** Today's records are stored together in front when they were saved after all
      older days' records (every save prepends). */
  lemma TodayOfNewerPrefix(newer: seq<ChecklistRecord>, older: seq<ChecklistRecord>, today: string)
    requires forall x :: x in newer ==> x.date == today
    requires forall x :: x in older ==> x.date != today
    ensures TodayRecords(newer + older, today) == newer
  {
    var p := OfDay(today);
    FilterConcat(p, newer, older);
    FilterKeepsAll(p, newer);
    FilterEmpty(p, older);
  }

  /** Whether a record carries a problem report (`r.problemReport.length > 0`). */
  function Reported(): ChecklistRecord -> bool
  {
    (x: ChecklistRecord) => x.problemReport != ""
  }

  /** Today's records with a problem report: one per stored position that is dated today
      and has a report. */
  lemma ReportedTodayCount(records: seq<ChecklistRecord>, today: string)
    ensures |Filter(Reported(), TodayRecords(records, today))|
         == |set i | 0 <= i < |records| && records[i].date == today && records[i].problemReport != ""|
  {
    assert TodayRecords(records, today) == Filter(OfDay(today), records);
    FilterTwiceCount(OfDay(today), Reported(), records);
    assert Positions(Both(OfDay(today), Reported()), records)
        == set i | 0 <= i < |records| && records[i].date == today && records[i].problemReport != "";
  }

  /** `problemsCount`: the number of stored positions dated today with a non-empty
      problem report. It never exceeds today's count, is zero exactly when no record of
      today reports a problem, and equals today's count exactly when all of them do. */
  function ProblemsCount(records: seq<ChecklistRecord>, today: string): (n: nat)
    ensures n == |set i | 0 <= i < |records| && records[i].date == today && records[i].problemReport != ""|
    ensures n <= |TodayRecords(records, today)|
    ensures n == 0 <==> forall x :: x in TodayRecords(records, today) ==> x.problemReport == ""
    ensures n == |TodayRecords(records, today)| <==>
      forall x :: x in TodayRecords(records, today) ==> x.problemReport != ""
  {
    var t := TodayRecords(records, today);
    FilterShrinks(Reported(), t);
    FilterEmpty(Reported(), t);
    ReportedTodayCount(records, today);
    |Filter(Reported(), t)|
  }

  /** One bar of "activity per sector (today)". */
  datatype ChartEntry = ChartEntry(name: string, concluidos: nat)

  /** Today's records of one sector: one per position of that sector. */
  function CountForSector(todayRecs: seq<ChecklistRecord>, sectorId: string): (n: nat)
    ensures n == |set i | 0 <= i < |todayRecs| && todayRecs[i].sectorId == sectorId|
    ensures n <= |todayRecs|
    ensures n == 0 <==> forall x :: x in todayRecs ==> x.sectorId != sectorId
  {
    var p := (x: ChecklistRecord) => x.sectorId == sectorId;
    FilterEmpty(p, todayRecs);
    FilterCount(p, todayRecs);
    assert Positions(p, todayRecs) == set i | 0 <= i < |todayRecs| && todayRecs[i].sectorId == sectorId;
    |Filter(p, todayRecs)|
  }

  /** `chartData`: one bar per sector, in sector order, named after the sector and as
      high as the number of today's records of that sector. */
  function ChartData(sectors: seq<Sector>, todayRecs: seq<ChecklistRecord>): (r: seq<ChartEntry>)
    ensures |r| == |sectors|
    ensures forall i :: 0 <= i < |sectors| ==>
      r[i].name == sectors[i].name && r[i].concluidos == CountForSector(todayRecs, sectors[i].id)
    ensures forall i :: 0 <= i < |r| ==> r[i].concluidos <= |todayRecs|
  {
    Map((s: Sector) => ChartEntry(s.name, CountForSector(todayRecs, s.id)), sectors)
  }

  function SectorIds(sectors: seq<Sector>): (r: seq<string>)
    ensures |r| == |sectors|
    ensures forall i :: 0 <= i < |sectors| ==> r[i] == sectors[i].id
  {
    Map((s: Sector) => s.id, sectors)
  }

  function SumBars(entries: seq<ChartEntry>): nat
  {
    if entries == [] then 0 else entries[0].concluidos + SumBars(entries[1..])
  }

  /** Whether a record's sector is one of `ids`. */
  function KnownSector(ids: seq<string>): ChecklistRecord -> bool
  {
    (x: ChecklistRecord) => x.sectorId in ids
  }

  lemma ChartDataCons(sectors: seq<Sector>, todayRecs: seq<ChecklistRecord>)
    requires sectors != []
    ensures SumBars(ChartData(sectors, todayRecs))
         == CountForSector(todayRecs, sectors[0].id) + SumBars(ChartData(sectors[1..], todayRecs))
  {
    assert ChartData(sectors, todayRecs)[1..] == ChartData(sectors[1..], todayRecs);
  }

  /** Records of the first sector and records of the others are counted separately. */
  lemma KnownSplit(sectors: seq<Sector>, todayRecs: seq<ChecklistRecord>)
    requires sectors != []
    requires forall j :: 0 < j < |sectors| ==> sectors[0].id != sectors[j].id
    ensures |Filter(KnownSector(SectorIds(sectors)), todayRecs)|
         == CountForSector(todayRecs, sectors[0].id) + |Filter(KnownSector(SectorIds(sectors[1..])), todayRecs)|
  {
    var id := sectors[0].id;
    var here := (x: ChecklistRecord) => x.sectorId == id;
    var there := KnownSector(SectorIds(sectors[1..]));
    assert SectorIds(sectors) == [id] + SectorIds(sectors[1..]);
    assert id !in SectorIds(sectors[1..]);
    FilterSplitCount(KnownSector(SectorIds(sectors)), here, there, todayRecs);
  }

  /** With distinct sector ids, the bars together count each of today's records of a
      known sector exactly once, so they never add up to more than today's figure. */
  lemma {:induction false} ChartCoversToday(sectors: seq<Sector>, todayRecs: seq<ChecklistRecord>)
    requires forall i, j :: 0 <= i < j < |sectors| ==> sectors[i].id != sectors[j].id
    ensures SumBars(ChartData(sectors, todayRecs)) == |Filter(KnownSector(SectorIds(sectors)), todayRecs)|
    ensures SumBars(ChartData(sectors, todayRecs)) <= |todayRecs|
  {
    if sectors == [] {
      FilterEmpty(KnownSector(SectorIds(sectors)), todayRecs);
    } else {
      ChartCoversToday(sectors[1..], todayRecs);
      ChartDataCons(sectors, todayRecs);
      KnownSplit(sectors, todayRecs);
    }
  }

  /** The four stat cards. */
  datatype Stats = Stats(today: nat, problems: nat, sectors: nat, total: nat)

  /** The cards: today's count, today's problems, the number of sectors and all records
      ever ("Total Mês" is not limited to a month). */
  function Summary(records: seq<ChecklistRecord>, sectors: seq<Sector>, today: string): (s: Stats)
    ensures s.problems <= s.today <= s.total
    ensures s.today == |TodayRecords(records, today)| && s.problems == ProblemsCount(records, today)
    ensures s.sectors == |sectors| && s.total == |records|
  {
    Stats(|TodayRecords(records, today)|, ProblemsCount(records, today), |sectors|, |records|)
  }

  /** `records.slice(0, 5)`: at most five records, the first ones stored. */
  function Recent(records: seq<ChecklistRecord>): (r: seq<ChecklistRecord>)
    ensures |r| == Min(5, |records|)
    ensures forall i :: 0 <= i < |r| ==> r[i] == records[i]
  {
    records[..Min(5, |records|)]
  }

  /** After a save, the new record heads the recent list and the previous recent list
      follows it, minus its fifth entry. */
  lemma RecentAfterSave(record: ChecklistRecord, records: seq<ChecklistRecord>)
    ensures Recent([record] + records)[0] == record
    ensures Recent([record] + records)[1..] == Recent(records)[..Min(4, |records|)]
  {
  }

  /** Icon and name shown for a record's sector. */
  datatype Badge = Badge(icon: string, name: string)

  /** `sectors.find(s => s.id === id)` with `?.icon || '📁'` and `?.name || 'Desconhecido'`:
      a missing sector, and also an empty icon or name, falls back. */
  function SectorBadge(sectors: seq<Sector>, sectorId: string): (b: Badge)
    ensures (forall s :: s in sectors ==> s.id != sectorId) ==> b == Badge("📁", "Desconhecido")
    ensures (exists s :: s in sectors && s.id == sectorId) ==>
      exists i :: (0 <= i < |sectors| && sectors[i].id == sectorId
        && (forall j :: 0 <= j < i ==> sectors[j].id != sectorId)
        && b.icon == (if sectors[i].icon != "" then sectors[i].icon else "📁")
        && b.name == (if sectors[i].name != "" then sectors[i].name else "Desconhecido"))
    ensures b.icon != "" && b.name != ""
  {
    match Find((s: Sector) => s.id == sectorId, sectors)
    case None => Badge("📁", "Desconhecido")
    case Some(s) => Badge(if s.icon != "" then s.icon else "📁", if s.name != "" then s.name else "Desconhecido")
  }
}
