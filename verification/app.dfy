/**
 * The home screen of the app: the selected day, its almanac, the medications
 * with their "taken today" toggle, the to-do and note lists with their
 * editing dialog, the calendar events, the diary with its links, and the
 * mood and weather of the day. The lists live only in the screen's state.
 */
module App {
  import opened Wrappers
  import opened Text
  import opened Calendar
  import Lists
  import Health

  /** A to-do or a note. */
  datatype Item = Item(id: int, titolo: string, descrizione: string, completato: bool)

  /** An event of the event dialog (its ten fields plus the id the delete button matches). */
  datatype CalEvent = CalEvent(
    id: int,
    titolo: string,
    data: string,
    colore: string,
    oraInizio: string,
    oraFine: string,
    luogo: string,
    invitati: string,
    descrizione: string,
    link: string,
    meet: string)

  datatype MediaItem = MediaItem(tipo: string, url: string)
  datatype Diary = Diary(testo: string, media: seq<MediaItem>)
  datatype DayStatus = DayStatus(mood: string, meteo: string)

  /** The to-do/note dialog: whether it is shown, which list it edits and the item being edited. */
  datatype ItemModal = ItemModal(show: bool, kind: string, data: Option<Item>)

  /** The almanac card: saint, proverb and historical fact of the day. */
  datatype DayAlmanac = DayAlmanac(santo: string, proverbio: string, curiosita: string)

  const Moods: seq<string> := ["\U{1F60A}", "\U{1F607}", "\U{1F610}", "\U{1F614}", "\U{1F621}"]
  const Weathers: seq<string> := ["\U{2600}\U{FE0F}", "\U{2601}\U{FE0F}", "\U{1F327}\U{FE0F}", "\U{26C8}\U{FE0F}", "\U{2744}\U{FE0F}"]
  const InitialStatus := DayStatus("\U{1F60A}", "\U{2600}\U{FE0F}")
  const ClosedModal := ItemModal(false, "", None)

  function ItemId(i: Item): int { i.id }
  function EventId(e: CalEvent): int { e.id }

  // ---------------------------------------------------------------------
  // The almanac card

  /** The Italian name of a month, as `toLocaleString('it-IT', { month: 'long' })` writes it. */
  function ItalianMonth(month: int): (name: string)
    requires 1 <= month <= 12
    ensures name != "" && '_' !in name
  {
    ["gennaio", "febbraio", "marzo", "aprile", "maggio", "giugno", "luglio",
     "agosto", "settembre", "ottobre", "novembre", "dicembre"][month - 1]
  }

  /** `${giorno}_${mese}`: the day without padding, an underscore, the month's name. */
  function MockKey(day: nat, month: int): (k: string)
    requires 1 <= month <= 12
    ensures |k| >= 3
    ensures var d := NatToString(day);
      && |k| == |d| + 1 + |ItalianMonth(month)|
      && k[..|d|] == d && k[|d|] == '_' && k[|d| + 1..] == ItalianMonth(month)
  {
    NatToString(day) + "_" + ItalianMonth(month)
  }

  const Becket := DayAlmanac("San Tommaso Becket", "San Tommaso, il freddo al naso.",
                             "Nel 1170 Tommaso Becket viene ucciso nella cattedrale di Canterbury.")
  const Ruggero := DayAlmanac("San Ruggero", "A San Ruggero, il freddo è vero.",
                              "Oggi si ricorda la traslazione delle reliquie a Barletta.")
  const DefaultAlmanac := DayAlmanac("Santo del Giorno", "Cogli l'attimo.",
                                     "In questo giorno la storia ha scritto pagine indimenticabili.")

  const MockData: map<string, DayAlmanac> := map["29_dicembre" := Becket, "30_dicembre" := Ruggero]

  /** The almanac of a day: the entry of its key, or the fixed default. */
  function MockAlmanac(day: nat, month: int): (a: DayAlmanac)
    requires 1 <= month <= 12
    ensures MockKey(day, month) in MockData ==> a == MockData[MockKey(day, month)]
    ensures MockKey(day, month) !in MockData ==> a == DefaultAlmanac
  {
    var key := MockKey(day, month);
    if key in MockData then MockData[key] else DefaultAlmanac
  }

  lemma DecemberName(month: int)
    requires 1 <= month <= 12
    ensures ItalianMonth(month) == "dicembre" <==> month == 12
  {
  }

  /** Reading a key back: `d_name` with `d` a rendered number and `name` a month name determines the day and the month. */
  lemma {:induction false} MockKeyDecodes(day: nat, month: int, d: nat)
    requires 1 <= month <= 12
    requires MockKey(day, month) == NatToString(d) + "_" + "dicembre"
    ensures day == d && month == 12
  {
    DigitsExclude(NatToString(day), '_');
    DigitsExclude(NatToString(d), '_');
    SplitAtSeparator(NatToString(day), ItalianMonth(month), NatToString(d), "dicembre", '_');
    NatToStringInjective(day, d);
    DecemberName(month);
  }

  /** The card shows Thomas Becket on 29 December, Roger on 30 December and the default triple on every other day. */
  lemma {:induction false} MockAlmanacDays(day: nat, month: int)
    requires 1 <= month <= 12
    ensures MockAlmanac(day, month) == Becket <==> day == 29 && month == 12
    ensures MockAlmanac(day, month) == Ruggero <==> day == 30 && month == 12
    ensures MockAlmanac(day, month) == DefaultAlmanac <==> !(month == 12 && (day == 29 || day == 30))
  {
    var key := MockKey(day, month);
    assert NatToString(29) == "29" && NatToString(30) == "30";
    assert "29_dicembre" == NatToString(29) + "_" + "dicembre";
    assert "30_dicembre" == NatToString(30) + "_" + "dicembre";
    if key == "29_dicembre" {
      MockKeyDecodes(day, month, 29);
    } else if key == "30_dicembre" {
      MockKeyDecodes(day, month, 30);
    }
    if month == 12 && day == 29 {
      assert key == "29_dicembre";
    } else if month == 12 && day == 30 {
      assert key == "30_dicembre";
    }
  }

  // ---------------------------------------------------------------------
  // Diary and medications

  /**
   * The link button: when the entered URL is present and not empty, the
   * diary's media gain a `URL` entry at the end; the text and the earlier
   * media stay as they were.
   */
  function WithLink(d: Diary, url: Option<string>): (r: Diary)
    ensures r.testo == d.testo
    ensures |r.media| == |d.media| + (if url.Some? && url.value != "" then 1 else 0)
    ensures r.media[..|d.media|] == d.media
    ensures url.Some? && url.value != "" ==> r.media[|d.media|] == MediaItem("URL", url.value)
  {
    if url.Some? && url.value != "" then d.(media := d.media + [MediaItem("URL", url.value)]) else d
  }

  /** A dismissed or empty prompt leaves the diary unchanged, and links accumulate in the order they are added. */
  lemma LinksAccumulate(d: Diary, u1: string, u2: string)
    requires u1 != "" && u2 != ""
    ensures WithLink(d, None) == d && WithLink(d, Some("")) == d
    ensures WithLink(WithLink(d, Some(u1)), Some(u2)).media == d.media + [MediaItem("URL", u1), MediaItem("URL", u2)]
  {
  }

  /** A medication shows as taken on at most one day: the stored date string names a single day. */
  lemma TakenOnOneDay(m: Health.Medication, a: Date, b: Date)
    requires ValidDate(a) && ValidDate(b)
    requires Health.TakenOn(m, IsoDate(a)) && Health.TakenOn(m, IsoDate(b))
    ensures a == b
  {
    IsoDateInjective(a, b);
  }

  // ---------------------------------------------------------------------
  // The screen's state

  class HappyApp {
    var selectedDate: Date
    var meds: seq<Health.Medication>
    var todoList: seq<Item>
    var notes: seq<Item>
    var googleEvents: seq<CalEvent>
    var diaryEntry: Diary
    var dayStatus: DayStatus
    var almanacco: DayAlmanac
    var itemModal: ItemModal

    /** The selected day is a calendar day and the card shows its almanac. */
    predicate Valid()
      reads this
    {
      && ValidDate(selectedDate) && almanacco == MockAlmanac(selectedDate.day, selectedDate.month)
      && dayStatus.meteo in Weathers && dayStatus.mood in Moods
    }

    /** The screen on `today`, after the almanac effect has run. */
    constructor (today: Date)
      requires ValidDate(today)
      ensures Valid() && selectedDate == today
      ensures meds == [] && todoList == [] && notes == [] && googleEvents == []
      ensures diaryEntry == Diary("", []) && dayStatus == InitialStatus && itemModal == ClosedModal
    {
      selectedDate := today;
      meds := [];
      todoList := [];
      notes := [];
      googleEvents := [];
      diaryEntry := Diary("", []);
      dayStatus := InitialStatus;
      almanacco := MockAlmanac(today.day, today.month);
      itemModal := ClosedModal;
    }

    /** The arrows of the header: one day back or forward, and that day's almanac. */
    method StepDay(offset: int)
      requires Valid() && (offset == 1 || offset == -1)
      modifies this
      ensures Valid() && selectedDate == Shift(old(selectedDate), offset)
      ensures meds == old(meds) && todoList == old(todoList) && notes == old(notes)
      ensures googleEvents == old(googleEvents) && diaryEntry == old(diaryEntry)
      ensures dayStatus == old(dayStatus) && itemModal == old(itemModal)
    {
      var d := Shift(selectedDate, offset);
      selectedDate := d;
      almanacco := MockAlmanac(d.day, d.month);
    }

    /** `fetchMeds`: the medications as the store returns them. */
    method LoadMeds(table: seq<Health.Medication>)
      requires Valid()
      modifies this
      ensures Valid() && meds == table
      ensures selectedDate == old(selectedDate) && todoList == old(todoList) && notes == old(notes)
      ensures googleEvents == old(googleEvents) && diaryEntry == old(diaryEntry)
      ensures dayStatus == old(dayStatus) && itemModal == old(itemModal)
    {
      meds := table;
    }

    /** `toggleMedication(m)`: the rows of `m` flip "taken on the selected day"; nothing else changes. */
    method ToggleMedication(m: Health.Medication)
      requires Valid()
      modifies this
      ensures Valid()
      ensures meds == Health.SetTaken(old(meds), m.id, Health.NextTaken(m.lastTakenDate, IsoDate(selectedDate)))
      ensures forall i :: 0 <= i < |meds| && old(meds)[i].id == m.id ==>
        (Health.TakenOn(meds[i], IsoDate(selectedDate)) <==> !Health.TakenOn(m, IsoDate(selectedDate)))
      ensures selectedDate == old(selectedDate) && todoList == old(todoList) && notes == old(notes)
      ensures googleEvents == old(googleEvents) && diaryEntry == old(diaryEntry)
      ensures dayStatus == old(dayStatus) && itemModal == old(itemModal)
    {
      var today := IsoDate(selectedDate);
      meds := Health.SetTaken(meds, m.id, Health.NextTaken(m.lastTakenDate, today));
    }

    /** `openItemModal(kind, item)`: the dialog shows `item`, or a blank item whose id is the clock reading `now`. */
    method OpenItemModal(kind: string, item: Option<Item>, now: int)
      requires Valid()
      modifies this
      ensures Valid()
      ensures itemModal == ItemModal(true, kind, Some(if item.Some? then item.value else Item(now, "", "", false)))
      ensures selectedDate == old(selectedDate) && meds == old(meds) && todoList == old(todoList)
      ensures notes == old(notes) && googleEvents == old(googleEvents)
      ensures diaryEntry == old(diaryEntry) && dayStatus == old(dayStatus)
    {
      itemModal := ItemModal(true, kind, Some(item.GetOr(Item(now, "", "", false))));
    }

    /** Typing in the dialog's title and description fields. */
    method EditItemText(titolo: string, descrizione: string)
      requires Valid() && itemModal.data.Some?
      modifies this
      ensures Valid()
      ensures itemModal == old(itemModal).(data := Some(old(itemModal).data.value.(titolo := titolo, descrizione := descrizione)))
      ensures selectedDate == old(selectedDate) && meds == old(meds) && todoList == old(todoList)
      ensures notes == old(notes) && googleEvents == old(googleEvents)
      ensures diaryEntry == old(diaryEntry) && dayStatus == old(dayStatus)
    {
      var data := itemModal.data.value;
      itemModal := itemModal.(data := Some(data.(titolo := titolo, descrizione := descrizione)));
    }

    /**
     * `saveItem`: the dialog's item is upserted by id into the to-do list
     * when the dialog is for a to-do, into the notes otherwise; the other
     * list is untouched and the dialog closes.
     */
    method SaveItem()
      requires Valid() && itemModal.data.Some?
      modifies this
      ensures Valid()
      ensures old(itemModal).kind == "todo" ==>
        todoList == Lists.Upsert(old(todoList), ItemId, old(itemModal).data.value) && notes == old(notes)
      ensures old(itemModal).kind != "todo" ==>
        notes == Lists.Upsert(old(notes), ItemId, old(itemModal).data.value) && todoList == old(todoList)
      ensures Lists.UniqueKeys(old(todoList), ItemId) ==> Lists.UniqueKeys(todoList, ItemId)
      ensures Lists.UniqueKeys(old(notes), ItemId) ==> Lists.UniqueKeys(notes, ItemId)
      ensures itemModal == ClosedModal
      ensures selectedDate == old(selectedDate) && meds == old(meds) && googleEvents == old(googleEvents)
      ensures diaryEntry == old(diaryEntry) && dayStatus == old(dayStatus)
    {
      var data := itemModal.data.value;
      if itemModal.kind == "todo" {
        if Lists.UniqueKeys(todoList, ItemId) {
          Lists.UpsertKeepsUnique(todoList, ItemId, data);
        }
        todoList := Lists.Upsert(todoList, ItemId, data);
      } else {
        if Lists.UniqueKeys(notes, ItemId) {
          Lists.UpsertKeepsUnique(notes, ItemId, data);
        }
        notes := Lists.Upsert(notes, ItemId, data);
      }
      itemModal := ClosedModal;
    }

    /** The delete button of a to-do: every to-do with that id goes, the others keep their order. */
    method DeleteTodo(id: int)
      requires Valid()
      modifies this
      ensures Valid() && todoList == Lists.RemoveKey(old(todoList), ItemId, id)
      ensures selectedDate == old(selectedDate) && meds == old(meds) && notes == old(notes)
      ensures googleEvents == old(googleEvents) && diaryEntry == old(diaryEntry)
      ensures dayStatus == old(dayStatus) && itemModal == old(itemModal)
    {
      todoList := Lists.RemoveKey(todoList, ItemId, id);
    }

    /** The delete button of a note. */
    method DeleteNote(id: int)
      requires Valid()
      modifies this
      ensures Valid() && notes == Lists.RemoveKey(old(notes), ItemId, id)
      ensures selectedDate == old(selectedDate) && meds == old(meds) && todoList == old(todoList)
      ensures googleEvents == old(googleEvents) && diaryEntry == old(diaryEntry)
      ensures dayStatus == old(dayStatus) && itemModal == old(itemModal)
    {
      notes := Lists.RemoveKey(notes, ItemId, id);
    }

    /** The delete button of an event. */
    method DeleteEvent(id: int)
      requires Valid()
      modifies this
      ensures Valid() && googleEvents == Lists.RemoveKey(old(googleEvents), EventId, id)
      ensures selectedDate == old(selectedDate) && meds == old(meds) && todoList == old(todoList)
      ensures notes == old(notes) && diaryEntry == old(diaryEntry)
      ensures dayStatus == old(dayStatus) && itemModal == old(itemModal)
    {
      googleEvents := Lists.RemoveKey(googleEvents, EventId, id);
    }

    /**
     * "Salva e Sincronizza": the dialog's event goes at the end of the events.
     * As written the dialog reads a field of a `null` event when it opens, so
     * this save is never reached; the event is a parameter here.
     */
    method AddEvent(e: CalEvent)
      requires Valid()
      modifies this
      ensures Valid() && googleEvents == old(googleEvents) + [e]
      ensures selectedDate == old(selectedDate) && meds == old(meds) && todoList == old(todoList)
      ensures notes == old(notes) && diaryEntry == old(diaryEntry)
      ensures dayStatus == old(dayStatus) && itemModal == old(itemModal)
    {
      googleEvents := googleEvents + [e];
    }

    /** The link button, with `url` the answer to the prompt (none when dismissed). */
    method AddLink(url: Option<string>)
      requires Valid()
      modifies this
      ensures Valid() && diaryEntry == WithLink(old(diaryEntry), url)
      ensures selectedDate == old(selectedDate) && meds == old(meds) && todoList == old(todoList)
      ensures notes == old(notes) && googleEvents == old(googleEvents)
      ensures dayStatus == old(dayStatus) && itemModal == old(itemModal)
    {
      diaryEntry := WithLink(diaryEntry, url);
    }

    /** Typing in the diary: the text changes, the media stay. */
    method SetDiaryText(testo: string)
      requires Valid()
      modifies this
      ensures Valid() && diaryEntry == Diary(testo, old(diaryEntry).media)
      ensures selectedDate == old(selectedDate) && meds == old(meds) && todoList == old(todoList)
      ensures notes == old(notes) && googleEvents == old(googleEvents)
      ensures dayStatus == old(dayStatus) && itemModal == old(itemModal)
    {
      diaryEntry := diaryEntry.(testo := testo);
    }

    /** A mood button: the mood changes, the weather stays. */
    method SetMood(mood: string)
      requires Valid() && mood in Moods
      modifies this
      ensures Valid() && dayStatus == DayStatus(mood, old(dayStatus).meteo)
      ensures selectedDate == old(selectedDate) && meds == old(meds) && todoList == old(todoList)
      ensures notes == old(notes) && googleEvents == old(googleEvents)
      ensures diaryEntry == old(diaryEntry) && itemModal == old(itemModal)
    {
      dayStatus := dayStatus.(mood := mood);
    }

    /** A weather button: the weather changes, the mood stays. */
    method SetWeather(meteo: string)
      requires Valid() && meteo in Weathers
      modifies this
      ensures Valid() && dayStatus == DayStatus(old(dayStatus).mood, meteo)
      ensures selectedDate == old(selectedDate) && meds == old(meds) && todoList == old(todoList)
      ensures notes == old(notes) && googleEvents == old(googleEvents)
      ensures diaryEntry == old(diaryEntry) && itemModal == old(itemModal)
    {
      dayStatus := dayStatus.(meteo := meteo);
    }
  }

  /** Stepping forward and back returns to the same day and shows the same almanac. */
  lemma StepBackAndForth(d: Date)
    requires ValidDate(d)
    ensures Shift(Shift(d, 1), -1) == d && Shift(Shift(d, -1), 1) == d
    ensures var e := Shift(Shift(d, 1), -1); MockAlmanac(e.day, e.month) == MockAlmanac(d.day, d.month)
  {
    ShiftRoundTrip(d, 1);
    ShiftRoundTrip(d, -1);
  }
}
