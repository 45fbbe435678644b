/**
 * The rules of the health tracker: grouping the metric rows by their type,
 * the day of the menstrual cycle, the medication form (name check and time
 * normalisation), the "taken on the selected date" toggle, the daily water
 * total and the chart series with its fallback. The medications table is a
 * list the tracker holds; the metric rows are given as they come back from
 * the store, in creation order.
 */
module Health {
  import opened Wrappers
  import opened Text
  import Lists

  /** A row of the metrics table. `kind` is its `type` column; `createdMs` is `new Date(created_at)` in milliseconds. */
  datatype MetricRow = MetricRow(kind: string, value: int, unit: string, createdAt: string, createdMs: int)

  datatype Medication = Medication(
    id: int,
    name: string,
    scheduleTime: Option<string>,
    description: Option<string>,
    lastTakenDate: Option<string>)

  /** The fields of the medication form that saving reads. */
  datatype MedForm = MedForm(name: string, time: string)

  /** What saving the form asks of the medications table. */
  datatype MedRequest =
    | Rejected(message: string)
    | UpdateRow(id: int, name: string, scheduleTime: string)
    | InsertRow(name: string, scheduleTime: string)

  const BlankNameMessage := "Scrivi il nome del farmaco!"
  const EmptyForm := MedForm("", "")

  function MedId(m: Medication): int { m.id }

  // ---------------------------------------------------------------------
  // Grouping metric rows by type

  predicate HasType(rows: seq<MetricRow>, t: string) {
    exists i :: 0 <= i < |rows| && rows[i].kind == t
  }

  /** The rows of type `t`, in the order of `rows`. */
  function RowsOfType(rows: seq<MetricRow>, t: string): (r: seq<MetricRow>)
    ensures |r| <= |rows|
  {
    if rows == [] then []
    else
      var init, last := rows[..|rows| - 1], rows[|rows| - 1];
      RowsOfType(init, t) + (if last.kind == t then [last] else [])
  }

  /** Every row of one type is a row of the input, of that type. */
  lemma {:induction false} RowsOfTypeSound(rows: seq<MetricRow>, t: string)
    ensures forall i :: 0 <= i < |RowsOfType(rows, t)| ==> RowsOfType(rows, t)[i].kind == t && RowsOfType(rows, t)[i] in rows
  {
    if rows != [] {
      var init, last := rows[..|rows| - 1], rows[|rows| - 1];
      var r0, r := RowsOfType(init, t), RowsOfType(rows, t);
      RowsOfTypeSound(init, t);
      assert r == r0 + (if last.kind == t then [last] else []);
      forall i | 0 <= i < |r| ensures r[i].kind == t && r[i] in rows {
        if i < |r0| {
          assert r[i] == r0[i] && r0[i].kind == t && r0[i] in init;
          var j :| 0 <= j < |init| && init[j] == r0[i];
          assert rows[j] == init[j];
        } else {
          assert r[i] == rows[|rows| - 1];
        }
      }
    }
  }

  /** Every input row of one type is among the rows of that type. */
  lemma {:induction false} RowsOfTypeComplete(rows: seq<MetricRow>, t: string)
    ensures var r := RowsOfType(rows, t); forall i :: 0 <= i < |rows| && rows[i].kind == t ==> rows[i] in r
  {
    if rows != [] {
      var init, last := rows[..|rows| - 1], rows[|rows| - 1];
      var r0, r := RowsOfType(init, t), RowsOfType(rows, t);
      RowsOfTypeComplete(init, t);
      assert r == r0 + (if last.kind == t then [last] else []);
      forall i | 0 <= i < |rows| && rows[i].kind == t ensures rows[i] in r {
        if i < |init| {
          assert init[i] == rows[i];
          var j :| 0 <= j < |r0| && r0[j] == init[i];
          assert r[j] == r0[j];
        } else {
          assert r[|r| - 1] == last;
        }
      }
    }
  }

  /** The map `g` holds one group per type occurring in `rows`, each group the rows of that type in order. */
  ghost predicate IsGrouping(g: map<string, seq<MetricRow>>, rows: seq<MetricRow>) {
    && (forall t :: t in g <==> HasType(rows, t))
    && (forall t :: t in g ==> g[t] == RowsOfType(rows, t))
  }

  /** A type with rows of its own occurs in the rows. */
  lemma RowsOfTypeOccurs(rows: seq<MetricRow>, t: string)
    ensures RowsOfType(rows, t) != [] ==> HasType(rows, t)
  {
    var r := RowsOfType(rows, t);
    RowsOfTypeSound(rows, t);
    RowsOfTypeComplete(rows, t);
    if r != [] {
      var j :| 0 <= j < |rows| && rows[j] == r[0];
      assert rows[j].kind == t;
    }
  }

  lemma HasTypeAppend(rows: seq<MetricRow>, row: MetricRow, t: string)
    ensures HasType(rows + [row], t) <==> HasType(rows, t) || row.kind == t
  {
    var s := rows + [row];
    if HasType(rows, t) {
      var i :| 0 <= i < |rows| && rows[i].kind == t;
      assert s[i] == rows[i];
    }
    if HasType(s, t) {
      var i :| 0 <= i < |s| && s[i].kind == t;
      if i < |rows| { assert s[i] == rows[i]; }
    }
    if row.kind == t { assert s[|rows|] == row; }
  }

  /** Pushing a row onto the group of its type (created empty if missing) keeps the grouping exact. */
  lemma GroupingStep(g: map<string, seq<MetricRow>>, rows: seq<MetricRow>, row: MetricRow)
    requires IsGrouping(g, rows)
    ensures IsGrouping(g[row.kind := (if row.kind in g then g[row.kind] else []) + [row]], rows + [row])
  {
    var s := rows + [row];
    var g2 := g[row.kind := (if row.kind in g then g[row.kind] else []) + [row]];
    assert s[..|rows|] == rows;
    forall t ensures t in g2 <==> HasType(s, t) {
      HasTypeAppend(rows, row, t);
    }
    RowsOfTypeOccurs(rows, row.kind);
  }

  /**
   * The `reduce` of `fetchData`: one pass over the rows, creating the group
   * of a type at its first row and pushing every row onto the group of its
   * type.
   */
  method GroupByType(rows: seq<MetricRow>) returns (groups: map<string, seq<MetricRow>>)
    ensures IsGrouping(groups, rows)
  {
    groups := map[];
    var i := 0;
    while i < |rows|
      invariant 0 <= i <= |rows|
      invariant IsGrouping(groups, rows[..i])
    {
      var curr := rows[i];
      ghost var before := groups;
      if curr.kind !in groups {
        groups := groups[curr.kind := []];
      }
      groups := groups[curr.kind := groups[curr.kind] + [curr]];
      GroupingStep(before, rows[..i], curr);
      assert rows[..i + 1] == rows[..i] + [curr];
      i := i + 1;
    }
    assert rows[..|rows|] == rows;
  }

  /** A row lands in the group of its own type and in no other group. */
  lemma {:induction false} GroupOfEachRow(g: map<string, seq<MetricRow>>, rows: seq<MetricRow>, i: nat)
    requires IsGrouping(g, rows) && i < |rows|
    ensures rows[i].kind in g && rows[i] in g[rows[i].kind]
    ensures forall t :: t in g && rows[i] in g[t] ==> t == rows[i].kind
  {
    assert HasType(rows, rows[i].kind);
    RowsOfTypeSound(rows, rows[i].kind);
    RowsOfTypeComplete(rows, rows[i].kind);
    forall t | t in g && rows[i] in g[t] ensures t == rows[i].kind {
      RowsOfTypeSound(rows, t);
      RowsOfTypeComplete(rows, t);
      var r := g[t];
      var j :| 0 <= j < |r| && r[j] == rows[i];
      assert r[j].kind == t;
    }
  }

  /** The distinct types of `rows`, in order of first occurrence. */
  function TypeOrder(rows: seq<MetricRow>): (ks: seq<string>)
    ensures forall i :: 0 <= i < |rows| ==> rows[i].kind in ks
    ensures forall k :: k in ks ==> HasType(rows, k)
    ensures forall i, j :: 0 <= i < j < |ks| ==> ks[i] != ks[j]
  {
    if rows == [] then []
    else
      var init, last := rows[..|rows| - 1], rows[|rows| - 1];
      var ks := TypeOrder(init);
      assert forall i :: 0 <= i < |init| ==> init[i] == rows[i];
      assert forall k :: HasType(init, k) ==> HasType(rows, k);
      if last.kind in ks then ks else ks + [last.kind]
  }

  /** A type present in a prefix is present in every longer prefix. */
  lemma HasTypePrefix(rows: seq<MetricRow>, k: nat, m: nat, t: string)
    requires k <= m <= |rows| && HasType(rows[..k], t)
    ensures HasType(rows[..m], t)
  {
    var i :| 0 <= i < k && rows[..k][i].kind == t;
    assert rows[..m][i] == rows[i];
  }

  predicate FirstOccurrenceOrder(rows: seq<MetricRow>, ks: seq<string>) {
    forall i, j, q :: 0 <= i < j < |ks| && 0 <= q < |rows| && rows[q].kind == ks[j] ==> HasType(rows[..q], ks[i])
  }

  /**
   * The keys come in order of first occurrence: wherever a row of a later
   * key appears, a row of every earlier key has already appeared.
   */
  lemma {:induction false} TypeOrderFirstOccurrence(rows: seq<MetricRow>)
    ensures FirstOccurrenceOrder(rows, TypeOrder(rows))
  {
    if rows != [] {
      var init, last := rows[..|rows| - 1], rows[|rows| - 1];
      var ks0, ks := TypeOrder(init), TypeOrder(rows);
      TypeOrderFirstOccurrence(init);
      assert ks[..|ks0|] == ks0;
      forall i, j, q | 0 <= i < j < |ks| && 0 <= q < |rows| && rows[q].kind == ks[j]
        ensures HasType(rows[..q], ks[i])
      {
        assert ks[i] == ks0[i];
        if j < |ks0| {
          assert ks[j] == ks0[j];
          FirstOccurrenceOldKey(rows, init, ks0, i, j, q);
        } else {
          assert ks[j] == last.kind;
          FirstOccurrenceNewKey(rows, init, ks0, i, q);
        }
      }
    }
  }

  /** A row of a key already present before the last row comes after rows of all earlier keys. */
  lemma FirstOccurrenceOldKey(rows: seq<MetricRow>, init: seq<MetricRow>, ks0: seq<string>, i: nat, j: nat, q: nat)
    requires rows != [] && init == rows[..|rows| - 1] && ks0 == TypeOrder(init)
    requires FirstOccurrenceOrder(init, ks0)
    requires i < j < |ks0| && q < |rows| && rows[q].kind == ks0[j]
    ensures HasType(rows[..q], ks0[i])
  {
    if q < |init| {
      assert init[q] == rows[q];
      assert rows[..q] == init[..q];
    } else {
      assert HasType(init, ks0[j]);
      var q0 :| 0 <= q0 < |init| && init[q0].kind == ks0[j];
      assert init[..q0] == rows[..q0];
      HasTypePrefix(rows, q0, q, ks0[i]);
    }
  }

  /** The only rows of the key the last row adds are at its own position, after every earlier key. */
  lemma FirstOccurrenceNewKey(rows: seq<MetricRow>, init: seq<MetricRow>, ks0: seq<string>, i: nat, q: nat)
    requires rows != [] && init == rows[..|rows| - 1] && ks0 == TypeOrder(init)
    requires rows[|rows| - 1].kind !in ks0
    requires i < |ks0| && q < |rows| && rows[q].kind == rows[|rows| - 1].kind
    ensures HasType(rows[..q], ks0[i])
  {
    assert q == |init|;
    assert rows[..q] == init;
    assert ks0[i] in ks0;
  }

  /** The total size of the groups named in `ks`. */
  function SumSizes(rows: seq<MetricRow>, ks: seq<string>): nat {
    if ks == [] then 0 else SumSizes(rows, ks[..|ks| - 1]) + |RowsOfType(rows, ks[|ks| - 1])|
  }

  function Occurrences(ks: seq<string>, t: string): nat {
    if ks == [] then 0 else Occurrences(ks[..|ks| - 1], t) + (if ks[|ks| - 1] == t then 1 else 0)
  }

  lemma {:induction false} SumSizesStep(rows: seq<MetricRow>, row: MetricRow, ks: seq<string>)
    ensures SumSizes(rows + [row], ks) == SumSizes(rows, ks) + Occurrences(ks, row.kind)
  {
    if ks != [] {
      SumSizesStep(rows, row, ks[..|ks| - 1]);
      assert (rows + [row])[..|rows|] == rows;
    }
  }

  lemma {:induction false} OccurrencesDistinct(ks: seq<string>, t: string)
    requires forall i, j :: 0 <= i < j < |ks| ==> ks[i] != ks[j]
    ensures Occurrences(ks, t) == if t in ks then 1 else 0
  {
    if ks != [] {
      var init := ks[..|ks| - 1];
      OccurrencesDistinct(init, t);
      if ks[|ks| - 1] == t {
        forall i | 0 <= i < |init| ensures init[i] != t {
          assert init[i] == ks[i];
        }
      }
      assert t in ks <==> t in init || ks[|ks| - 1] == t;
    }
  }

  lemma SumSizesAppendKey(rows: seq<MetricRow>, ks: seq<string>, t: string)
    ensures SumSizes(rows, ks + [t]) == SumSizes(rows, ks) + |RowsOfType(rows, t)|
  {
    assert (ks + [t])[..|ks|] == ks;
  }

  /** The groups partition the rows: their sizes add up to the number of rows. */
  lemma {:induction false} GroupSizesSum(rows: seq<MetricRow>)
    ensures SumSizes(rows, TypeOrder(rows)) == |rows|
  {
    if rows != [] {
      var init, last := rows[..|rows| - 1], rows[|rows| - 1];
      assert rows == init + [last];
      var ks0 := TypeOrder(init);
      GroupSizesSum(init);
      SumSizesStep(init, last, ks0);
      OccurrencesDistinct(ks0, last.kind);
      if last.kind !in ks0 {
        SumSizesAppendKey(rows, ks0, last.kind);
        RowsOfTypeOccurs(init, last.kind);
      }
    }
  }

  // ---------------------------------------------------------------------
  // Day of the cycle

  const MsPerDay := 86400000

  /** `metrics['period_start'] || []`. */
  function PeriodStarts(metrics: map<string, seq<MetricRow>>): seq<MetricRow> {
    if "period_start" in metrics then metrics["period_start"] else []
  }

  /** Read from the grouped rows, the period starts are the `period_start` rows in order, empty exactly when there are none. */
  lemma PeriodStartsOfGrouping(g: map<string, seq<MetricRow>>, rows: seq<MetricRow>)
    requires IsGrouping(g, rows)
    ensures PeriodStarts(g) == RowsOfType(rows, "period_start")
    ensures PeriodStarts(g) == [] <==> !HasType(rows, "period_start")
  {
    RowsOfTypeOccurs(rows, "period_start");
    RowsOfTypeSound(rows, "period_start");
    RowsOfTypeComplete(rows, "period_start");
    if HasType(rows, "period_start") {
      var i :| 0 <= i < |rows| && rows[i].kind == "period_start";
      assert rows[i] in RowsOfType(rows, "period_start");
    }
  }

  function Abs(x: int): nat { if x < 0 then -x else x }

  /** `Math.ceil(a / b)` for a natural `a` and a positive `b`. */
  function CeilDiv(a: nat, b: nat): (q: nat)
    requires b > 0
    ensures q * b >= a && (q == 0 || (q - 1) * b < a)
  {
    (a + b - 1) / b
  }

  /**
   * `getCycleDay()`: no value without a `period_start` row; otherwise the
   * whole days between the last start and the selected day, rounded up,
   * plus one, and no value when that exceeds 35.
   */
  function CycleDay(metrics: map<string, seq<MetricRow>>, todayMs: int): (r: Option<int>)
    ensures PeriodStarts(metrics) == [] ==> r == None
    ensures r.Some? ==> 1 <= r.value <= 35
    ensures PeriodStarts(metrics) != [] ==>
      var periods := PeriodStarts(metrics);
      var elapsed := Abs(todayMs - periods[|periods| - 1].createdMs);
      && (r.None? <==> elapsed > 34 * MsPerDay)
      && (r.Some? ==> (r.value - 1) * MsPerDay >= elapsed && (r.value == 1 || (r.value - 2) * MsPerDay < elapsed))
  {
    var periods := PeriodStarts(metrics);
    if |periods| == 0 then None
    else
      var lastStart := periods[|periods| - 1].createdMs;
      var diffTime := Abs(todayMs - lastStart);
      var diffDays := CeilDiv(diffTime, MsPerDay) + 1;
      if diffDays <= 35 then Some(diffDays) else None
  }

  /**
   * At the very instant of the last start the count is 1, and it does not
   * depend on which side of the start the selected instant lies.
   */
  lemma CycleDayExamples(metrics: map<string, seq<MetricRow>>, t: int)
    requires PeriodStarts(metrics) != []
    ensures var p := PeriodStarts(metrics); var s := p[|p| - 1].createdMs;
      && CycleDay(metrics, s) == Some(1)
      && CycleDay(metrics, s + t) == CycleDay(metrics, s - t)
  {
  }

  /**
   * The start is recorded at the moment of marking, while the selected day
   * is that day's midnight: on the day the start is marked, the count is 2,
   * not 1.
   */
  lemma CycleDayOnMarkingDay(metrics: map<string, seq<MetricRow>>, todayMs: int)
    requires PeriodStarts(metrics) != []
    requires var p := PeriodStarts(metrics); 0 < p[|p| - 1].createdMs - todayMs < MsPerDay
    ensures CycleDay(metrics, todayMs) == Some(2)
  {
    var p := PeriodStarts(metrics);
    var elapsed := Abs(todayMs - p[|p| - 1].createdMs);
    assert 0 < elapsed < MsPerDay;
    assert CeilDiv(elapsed, MsPerDay) == 1;
  }

  // ---------------------------------------------------------------------
  // The medication form

  /**
   * `!name || name.trim() === ""`: a name is refused exactly when it has no
   * character other than whitespace.
   */
  predicate IsBlankName(name: string)
    ensures IsBlankName(name) <==> AllWhitespace(name)
  {
    TrimEmptyIffAllWhitespace(name);
    name == "" || Trim(name) == ""
  }

  /** The time of the form as stored: `HH:MM` gains `:00`, no time is midnight, anything else is kept. */
  function FormatTime(time: string): (r: string)
    ensures time != "" ==> StartsWith(r, time)
    ensures |time| == 5 ==> r == time + ":00"
    ensures time != "" && |time| != 5 ==> r == time
    ensures time == "" ==> r == "00:00:00"
  {
    if time != "" then (if |time| == 5 then time + ":00" else time) else "00:00:00"
  }

  predicate IsHourMinute(s: string) {
    |s| == 5 && IsDigit(s[0]) && IsDigit(s[1]) && s[2] == ':' && IsDigit(s[3]) && IsDigit(s[4])
  }

  predicate IsHourMinuteSecond(s: string) {
    |s| == 8 && IsHourMinute(s[..5]) && s[5] == ':' && IsDigit(s[6]) && IsDigit(s[7])
  }

  /** What the time picker gives (`HH:MM`, or nothing) is stored as a full `HH:MM:SS`; stored times are kept as they are. */
  lemma FormatTimeWellFormed(time: string)
    ensures IsHourMinute(time) || time == "" ==> IsHourMinuteSecond(FormatTime(time))
    ensures IsHourMinuteSecond(time) ==> FormatTime(time) == time
    ensures FormatTime(FormatTime(time)) == FormatTime(time)
  {
    if IsHourMinute(time) {
      assert (time + ":00")[..5] == time;
    }
  }

  /** `startEdit`'s time: the first five characters of the stored time, or nothing. */
  function EditTime(scheduleTime: Option<string>): (r: string)
    ensures scheduleTime.None? ==> r == ""
    ensures scheduleTime.Some? ==> StartsWith(scheduleTime.value, r)
    ensures scheduleTime.Some? ==> |r| == if |scheduleTime.value| < 5 then |scheduleTime.value| else 5
  {
    match scheduleTime
    case None => ""
    case Some(t) => if t == "" then "" else t[..if |t| < 5 then |t| else 5]
  }

  /**
   * Opening a medication for editing and saving it unchanged keeps a stored
   * `HH:MM:SS` time only up to the minute: the seconds become `00`.
   */
  lemma EditThenSaveTime(t: string)
    requires IsHourMinuteSecond(t)
    ensures FormatTime(EditTime(Some(t))) == t[..5] + ":00"
    ensures FormatTime(EditTime(Some(t))) == t <==> t[5..] == ":00"
    ensures FormatTime(EditTime(None)) == "00:00:00"
  {
    if t[5..] == ":00" {
      assert t == t[..5] + t[5..];
    }
  }

  /** An id that JavaScript reads as true: present and not 0. */
  predicate IsTruthyId(id: Option<int>) {
    id.Some? && id.value != 0
  }

  /** Saving a valid form while the edited id is missing or 0 inserts a new row rather than updating one. */
  lemma FalsyIdInserts(form: MedForm, editingId: Option<int>)
    requires !IsBlankName(form.name)
    ensures editingId == None || editingId == Some(0) ==> SaveMedRequest(form, editingId) == InsertRow(form.name, FormatTime(form.time))
    ensures editingId.Some? && editingId.value != 0 ==> SaveMedRequest(form, editingId) == UpdateRow(editingId.value, form.name, FormatTime(form.time))
  {
  }

  /**
   * `saveMed`'s decision: a blank name is refused with a message; otherwise
   * the row `editingId` is updated when an id is being edited, and a new row
   * inserted when not, with the name as typed and the normalised time.
   */
  function SaveMedRequest(form: MedForm, editingId: Option<int>): (r: MedRequest)
    ensures r.Rejected? <==> IsBlankName(form.name)
    ensures r.Rejected? ==> r.message == BlankNameMessage
    ensures r.UpdateRow? <==> !IsBlankName(form.name) && IsTruthyId(editingId)
    ensures r.UpdateRow? ==> r.id == editingId.value
    ensures !r.Rejected? ==> r.name == form.name && r.scheduleTime == FormatTime(form.time)
  {
    if IsBlankName(form.name) then Rejected(BlankNameMessage)
    else
      var formattedTime := FormatTime(form.time);
      if IsTruthyId(editingId) then UpdateRow(editingId.value, form.name, formattedTime)
      else InsertRow(form.name, formattedTime)
  }

  /**
   * The medications table after the request: an update sets the name and
   * time of the rows with that id and nothing else, an insert appends a row
   * with the id the store assigns, a refusal changes nothing.
   */
  function ApplyMedRequest(table: seq<Medication>, req: MedRequest, newId: int): (r: seq<Medication>)
    ensures req.Rejected? ==> r == table
    ensures req.InsertRow? ==>
      (|r| == |table| + 1 && r[..|table|] == table &&
       r[|table|] == Medication(newId, req.name, Some(req.scheduleTime), None, None))
    ensures req.UpdateRow? ==> |r| == |table| && forall i :: 0 <= i < |table| ==>
      && r[i].id == table[i].id
      && r[i].description == table[i].description
      && r[i].lastTakenDate == table[i].lastTakenDate
      && (table[i].id == req.id ==> r[i].name == req.name && r[i].scheduleTime == Some(req.scheduleTime))
      && (table[i].id != req.id ==> r[i] == table[i])
  {
    match req
    case Rejected(_) => table
    case InsertRow(name, time) => table + [Medication(newId, name, Some(time), None, None)]
    case UpdateRow(id, name, time) =>
      seq(|table|, i requires 0 <= i < |table| =>
        if table[i].id == id then table[i].(name := name, scheduleTime := Some(time)) else table[i])
  }

  // ---------------------------------------------------------------------
  // Taken on the selected date

  /** The "taken" mark of a medication on a date: exactly when the next toggle on that date would clear it. */
  predicate TakenOn(m: Medication, date: string)
    ensures TakenOn(m, date) <==> NextTaken(m.lastTakenDate, date) == None
  {
    m.lastTakenDate == Some(date)
  }

  /** `lastTaken === selectedDate ? null : selectedDate`: the next value flips "taken on the selected date". */
  function NextTaken(lastTaken: Option<string>, selectedDate: string): (r: Option<string>)
    ensures r == Some(selectedDate) <==> lastTaken != Some(selectedDate)
    ensures r != Some(selectedDate) ==> r == None
  {
    if lastTaken == Some(selectedDate) then None else Some(selectedDate)
  }

  /**
   * Toggling twice restores "taken on the selected date", but a date taken
   * on another day is not brought back: it is cleared.
   */
  lemma ToggleTwice(lastTaken: Option<string>, selectedDate: string)
    ensures NextTaken(NextTaken(lastTaken, selectedDate), selectedDate)
      == if lastTaken == Some(selectedDate) then lastTaken else None
  {
  }

  /** The table after the update of `last_taken_date` on the rows with id `id`. */
  function SetTaken(table: seq<Medication>, id: int, v: Option<string>): (r: seq<Medication>)
    ensures |r| == |table|
    ensures forall i :: 0 <= i < |table| ==> r[i] == if table[i].id == id then table[i].(lastTakenDate := v) else table[i]
  {
    seq(|table|, i requires 0 <= i < |table| => if table[i].id == id then table[i].(lastTakenDate := v) else table[i])
  }

  /** After the toggle of `m`, its rows show as taken on the selected date exactly when `m` did not. */
  lemma ToggleFlipsRow(table: seq<Medication>, m: Medication, selectedDate: string, i: nat)
    requires i < |table| && table[i].id == m.id
    ensures TakenOn(SetTaken(table, m.id, NextTaken(m.lastTakenDate, selectedDate))[i], selectedDate)
        <==> !TakenOn(m, selectedDate)
  {
  }

  // ---------------------------------------------------------------------
  // Water and chart series

  /** `rows.filter(m => m.created_at.includes(day))`. */
  function RowsOfDay(rows: seq<MetricRow>, day: string): (r: seq<MetricRow>)
    ensures |r| <= |rows|
    ensures forall i :: 0 <= i < |r| ==> r[i] in rows && Contains(r[i].createdAt, day)
    ensures forall i :: 0 <= i < |rows| && Contains(rows[i].createdAt, day) ==> rows[i] in r
  {
    if rows == [] then []
    else if Contains(rows[0].createdAt, day) then [rows[0]] + RowsOfDay(rows[1..], day)
    else RowsOfDay(rows[1..], day)
  }

  /** `rows.reduce((acc, curr) => acc + curr.value, 0)`. */
  function SumValues(rows: seq<MetricRow>): int {
    if rows == [] then 0 else SumValues(rows[..|rows| - 1]) + rows[|rows| - 1].value
  }

  /** The day filter distributes over concatenation, so the kept rows keep their order. */
  lemma {:induction false} RowsOfDayAppend(a: seq<MetricRow>, b: seq<MetricRow>, day: string)
    ensures RowsOfDay(a + b, day) == RowsOfDay(a, day) + RowsOfDay(b, day)
  {
    if a != [] {
      var ab := a + b;
      assert ab[0] == a[0] && ab[1..] == a[1..] + b;
      RowsOfDayAppend(a[1..], b, day);
      assert RowsOfDay(ab, day) == (if Contains(a[0].createdAt, day) then [a[0]] else []) + RowsOfDay(ab[1..], day);
    } else {
      assert a + b == b;
    }
  }

  /** The total of the rows of one day: 0 when none of the rows is of that day. */
  function DayTotal(rows: seq<MetricRow>, day: string): (total: int)
    ensures (forall i :: 0 <= i < |rows| ==> !Contains(rows[i].createdAt, day)) ==> total == 0
  {
    SumValues(RowsOfDay(rows, day))
  }

  /** `waterTotal`: the sum of the water rows created on the selected day, 0 when there are none. */
  function WaterTotal(metrics: map<string, seq<MetricRow>>, day: string): (total: int)
    ensures "water" !in metrics ==> total == 0
    ensures "water" in metrics && (forall i :: 0 <= i < |metrics["water"]| ==> !Contains(metrics["water"][i].createdAt, day)) ==> total == 0
  {
    DayTotal(if "water" in metrics then metrics["water"] else [], day)
  }

  /** A new row adds its value to the day's total when it is of that day, and nothing otherwise. */
  lemma DayTotalAppend(rows: seq<MetricRow>, row: MetricRow, day: string)
    ensures DayTotal(rows + [row], day) == DayTotal(rows, day) + if Contains(row.createdAt, day) then row.value else 0
  {
    RowsOfDayAppend(rows, [row], day);
    var a := RowsOfDay(rows, day);
    if Contains(row.createdAt, day) {
      assert RowsOfDay([row], day) == [row];
      assert (a + [row])[..|a|] == a;
    } else {
      assert RowsOfDay([row], day) == [];
      assert a + [] == a;
    }
  }

  /** Read from the grouped rows, `waterTotal` is the day total of the fetched water rows. */
  lemma WaterTotalOfFetched(g: map<string, seq<MetricRow>>, rows: seq<MetricRow>, day: string)
    requires IsGrouping(g, rows)
    ensures WaterTotal(g, day) == DayTotal(RowsOfType(rows, "water"), day)
  {
    RowsOfTypeOccurs(rows, "water");
  }

  /** With the rows grouped as `fetchData` groups them, one more 250 ml water row of the day adds 250 to `waterTotal`. */
  lemma AddWaterAdds250(rows: seq<MetricRow>, g: map<string, seq<MetricRow>>, g2: map<string, seq<MetricRow>>,
                        water: MetricRow, day: string)
    requires water.kind == "water" && water.value == 250 && Contains(water.createdAt, day)
    requires IsGrouping(g, rows) && IsGrouping(g2, rows + [water])
    ensures WaterTotal(g2, day) == WaterTotal(g, day) + 250
  {
    var s := rows + [water];
    assert s[..|rows|] == rows;
    HasTypeAppend(rows, water, "water");
    assert "water" in g2;
    RowsOfTypeOccurs(rows, "water");
    DayTotalAppend(RowsOfType(rows, "water"), water, day);
  }

  /** `metrics[id] || (id === 'pressure' ? metrics['systolic'] : []) || []`. */
  function SeriesFor(metrics: map<string, seq<MetricRow>>, id: string): (r: seq<MetricRow>)
    ensures id in metrics ==> r == metrics[id]
    ensures id !in metrics && id == "pressure" && "systolic" in metrics ==> r == metrics["systolic"]
    ensures id !in metrics && (id != "pressure" || "systolic" !in metrics) ==> r == []
  {
    if id in metrics then metrics[id]
    else if id == "pressure" && "systolic" in metrics then metrics["systolic"]
    else []
  }

  /** The last value of a series, `--` (none) when it is empty. */
  function LastValue(data: seq<MetricRow>): (r: Option<int>)
    ensures r.Some? <==> data != []
    ensures r.Some? ==> r.value == data[|data| - 1].value
  {
    if |data| > 0 then Some(data[|data| - 1].value) else None
  }

  /** Pressure is stored as systolic and diastolic rows, so the pressure card shows the systolic series and its last value. */
  lemma PressureShowsSystolic(rows: seq<MetricRow>, g: map<string, seq<MetricRow>>)
    requires IsGrouping(g, rows) && !HasType(rows, "pressure")
    ensures SeriesFor(g, "pressure") == RowsOfType(rows, "systolic")
    ensures LastValue(SeriesFor(g, "pressure")).Some? <==> HasType(rows, "systolic")
  {
    RowsOfTypeOccurs(rows, "systolic");
    RowsOfTypeSound(rows, "systolic");
    RowsOfTypeComplete(rows, "systolic");
    if HasType(rows, "systolic") {
      var i :| 0 <= i < |rows| && rows[i].kind == "systolic";
      assert rows[i] in RowsOfType(rows, "systolic");
    }
  }

  /** The number a metric card shows: the synced step count for steps when there is one, else the last value of its series. */
  function CardValue(metrics: map<string, seq<MetricRow>>, id: string, steps: int): (r: Option<int>)
    ensures id == "steps" && steps > 0 ==> r == Some(steps)
    ensures !(id == "steps" && steps > 0) ==> r == LastValue(SeriesFor(metrics, id))
  {
    if id == "steps" && steps > 0 then Some(steps) else LastValue(SeriesFor(metrics, id))
  }

  /** Row `q` is a row of type `t` and no later row has that type. */
  predicate LastRowOfType(rows: seq<MetricRow>, t: string, q: int) {
    0 <= q < |rows| && rows[q].kind == t && forall p :: q < p < |rows| ==> rows[p].kind != t
  }

  /** A present type's rows end with the last row of that type, at index `q`. */
  lemma {:induction false} LastOfType(rows: seq<MetricRow>, t: string) returns (q: nat)
    requires HasType(rows, t)
    ensures LastRowOfType(rows, t, q)
    ensures var r := RowsOfType(rows, t); r != [] && r[|r| - 1] == rows[q]
  {
    var init, last := rows[..|rows| - 1], rows[|rows| - 1];
    var r0 := RowsOfType(init, t);
    if last.kind == t {
      var r := r0 + [last];
      assert RowsOfType(rows, t) == r;
      assert r[|r| - 1] == last;
      q := |rows| - 1;
    } else {
      assert RowsOfType(rows, t) == r0 by { assert r0 + [] == r0; }
      var i :| 0 <= i < |rows| && rows[i].kind == t;
      assert i < |init| && init[i] == rows[i];
      q := LastOfType(init, t);
      assert r0[|r0| - 1] == init[q] == rows[q];
      forall p | q < p < |rows| ensures rows[p].kind != t {
        if p < |init| { assert init[p] == rows[p]; }
      }
    }
  }

  /**
   * The card read from the grouped rows: the synced steps when positive;
   * otherwise a value exactly when the type has rows (or, for pressure, when
   * there are systolic rows), and that value is the one of the last such row.
   */
  lemma CardShowsLastRow(g: map<string, seq<MetricRow>>, rows: seq<MetricRow>, id: string, steps: int)
    requires IsGrouping(g, rows)
    ensures id == "steps" && steps > 0 ==> CardValue(g, id, steps) == Some(steps)
    ensures !(id == "steps" && steps > 0) ==>
      (CardValue(g, id, steps).Some? <==> HasType(rows, id) || (id == "pressure" && HasType(rows, "systolic")))
    ensures !(id == "steps" && steps > 0) && HasType(rows, id) ==>
      exists q :: LastRowOfType(rows, id, q) && CardValue(g, id, steps) == Some(rows[q].value)
    ensures !(id == "steps" && steps > 0) && id == "pressure" && !HasType(rows, "pressure") && HasType(rows, "systolic") ==>
      exists q :: LastRowOfType(rows, "systolic", q) && CardValue(g, id, steps) == Some(rows[q].value)
  {
    if !(id == "steps" && steps > 0) {
      if HasType(rows, id) {
        var q := LastOfType(rows, id);
      } else if id == "pressure" && HasType(rows, "systolic") {
        var q := LastOfType(rows, "systolic");
      }
    }
  }

  // ---------------------------------------------------------------------
  // The tracker's state

  class HealthTracker {
    var meds: seq<Medication>
    var metrics: map<string, seq<MetricRow>>
    var selectedDate: string
    var newMed: MedForm
    var editingId: Option<int>
    /** The metric rows last fetched, of which `metrics` is the grouping. */
    ghost var rows: seq<MetricRow>

    ghost predicate Valid()
      reads this
    {
      IsGrouping(metrics, rows)
    }

    /** The tracker on `today`, after the first `fetchData`. */
    constructor (today: string, table: seq<Medication>, fetched: seq<MetricRow>)
      ensures Valid() && rows == fetched
      ensures meds == table && IsGrouping(metrics, fetched)
      ensures selectedDate == today && newMed == EmptyForm && editingId == None
    {
      var groups := GroupByType(fetched);
      meds := table;
      selectedDate := today;
      newMed := EmptyForm;
      editingId := None;
      metrics := groups;
      rows := fetched;
    }

    /** `fetchData`'s metrics part: the rows, grouped by type. */
    method FetchMetrics(fetched: seq<MetricRow>)
      modifies this
      ensures Valid() && rows == fetched && IsGrouping(metrics, fetched)
      ensures meds == old(meds) && selectedDate == old(selectedDate)
      ensures newMed == old(newMed) && editingId == old(editingId)
    {
      metrics := GroupByType(fetched);
      rows := fetched;
    }

    method SelectDate(date: string)
      requires Valid()
      modifies this
      ensures Valid() && rows == old(rows)
      ensures selectedDate == date
      ensures meds == old(meds) && metrics == old(metrics)
      ensures newMed == old(newMed) && editingId == old(editingId)
    {
      selectedDate := date;
    }

    /**
     * `saveMed`: a blank name changes nothing; otherwise the table gets the
     * update or the insert and the form is cleared.
     */
    method SaveMed(newId: int) returns (saved: bool)
      requires Valid()
      modifies this
      ensures Valid() && rows == old(rows)
      ensures saved <==> !IsBlankName(old(newMed).name)
      ensures meds == ApplyMedRequest(old(meds), SaveMedRequest(old(newMed), old(editingId)), newId)
      ensures saved ==> newMed == EmptyForm && editingId == None
      ensures !saved ==> meds == old(meds) && newMed == old(newMed) && editingId == old(editingId)
      ensures metrics == old(metrics) && selectedDate == old(selectedDate)
    {
      var req := SaveMedRequest(newMed, editingId);
      if req.Rejected? {
        return false;
      }
      meds := ApplyMedRequest(meds, req, newId);
      newMed := EmptyForm;
      editingId := None;
      saved := true;
    }

    /** The add button: the form is cleared and no row is being edited. */
    method OpenNewForm()
      requires Valid()
      modifies this
      ensures Valid() && rows == old(rows)
      ensures newMed == EmptyForm && editingId == None
      ensures meds == old(meds) && metrics == old(metrics) && selectedDate == old(selectedDate)
    {
      newMed := EmptyForm;
      editingId := None;
    }

    /** `startEdit`: the form shows the row's name and its time to the minute. */
    method StartEdit(m: Medication)
      requires Valid()
      modifies this
      ensures Valid() && rows == old(rows)
      ensures newMed == MedForm(m.name, EditTime(m.scheduleTime)) && editingId == Some(m.id)
      ensures meds == old(meds) && metrics == old(metrics) && selectedDate == old(selectedDate)
    {
      newMed := MedForm(m.name, EditTime(m.scheduleTime));
      editingId := Some(m.id);
    }

    /** `deleteMed`: the rows with that id go once the user confirms. */
    method DeleteMed(id: int, confirmed: bool)
      requires Valid()
      modifies this
      ensures Valid() && rows == old(rows)
      ensures meds == if confirmed then Lists.RemoveKey(old(meds), MedId, id) else old(meds)
      ensures metrics == old(metrics) && selectedDate == old(selectedDate)
      ensures newMed == old(newMed) && editingId == old(editingId)
    {
      if confirmed {
        meds := Lists.RemoveKey(meds, MedId, id);
      }
    }

    /** `toggleMed`: the rows with id `id` get the next `last_taken_date`. */
    method ToggleMed(id: int, lastTaken: Option<string>)
      requires Valid()
      modifies this
      ensures Valid() && rows == old(rows)
      ensures meds == SetTaken(old(meds), id, NextTaken(lastTaken, selectedDate))
      ensures metrics == old(metrics) && selectedDate == old(selectedDate)
      ensures newMed == old(newMed) && editingId == old(editingId)
    {
      meds := SetTaken(meds, id, NextTaken(lastTaken, selectedDate));
    }
  }
}
