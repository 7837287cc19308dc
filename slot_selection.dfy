/** Step 3 of the reservation wizard: the fixed table of time slots, the
    per-slot occupancy of the chosen day, and the select and submit guards. */
module SlotSelection {
  import opened Text
  import opened ReservationWizard
  import DateSelection

  /** One row of `saatDilimleri`: the slot key, its title, its length as
      shown, and what is served. */
  datatype Slot = Slot(saat: string, baslik: string, sure: string, ikramlar: seq<string>)

  const Slots: seq<Slot> := [
    Slot("07:00-08:30", "07:00 - 08:30", "1.5 Saat", ["Kahvaltı"]),
    Slot("09:00-10:30", "09:00 - 10:30", "1.5 Saat", []),
    Slot("11:00-12:00", "11:00 - 12:00", "1 Saat", []),
    Slot("12:00-13:30", "12:00 - 13:30", "1.5 Saat", ["Öğle Yemeği"]),
    Slot("14:00-15:30", "14:00 - 15:30", "1.5 Saat", []),
    Slot("16:00-17:00", "16:00 - 17:00", "1 Saat", ["Waffle"])
  ]

  /** A slot key has the shape `HH:MM-HH:MM`. */
  predicate WellFormedKey(k: string) {
    |k| == 11 && k[2] == ':' && k[5] == '-' && k[8] == ':'
    && IsDigit(k[0]) && IsDigit(k[1]) && IsDigit(k[3]) && IsDigit(k[4])
    && IsDigit(k[6]) && IsDigit(k[7]) && IsDigit(k[9]) && IsDigit(k[10])
  }

  /** The clock time `HH:MM` starting at position `at` of a key, in minutes after midnight. */
  function ClockAt(k: string, at: int): int
    requires 0 <= at && at + 4 < |k|
    requires IsDigit(k[at]) && IsDigit(k[at + 1]) && IsDigit(k[at + 3]) && IsDigit(k[at + 4])
  {
    60 * (10 * DigitValue(k[at]) + DigitValue(k[at + 1])) + 10 * DigitValue(k[at + 3]) + DigitValue(k[at + 4])
  }

  /** Minutes after midnight at which the slot starts. */
  function StartMinutes(k: string): int
    requires WellFormedKey(k)
  {
    ClockAt(k, 0)
  }

  /** Minutes after midnight at which the slot ends. */
  function EndMinutes(k: string): int
    requires WellFormedKey(k)
  {
    ClockAt(k, 6)
  }

  /** The title is the key with spaces around the dash. */
  function TitleOf(k: string): string
    requires WellFormedKey(k)
  {
    k[..5] + " - " + k[6..]
  }

  /** The shown length in hours, for the two lengths the table uses. */
  function LengthLabel(minutes: int): string {
    if minutes == 90 then "1.5 Saat" else if minutes == 60 then "1 Saat" else ""
  }

  /** The start and end of each slot, in minutes after midnight. */
  const SlotStarts: seq<int> := [420, 540, 660, 720, 840, 960]
  const SlotEnds: seq<int> := [510, 630, 720, 810, 930, 1020]

  /** The table has six well-formed slots; each agrees with its start and end
      time, its title and its shown length, and the slots are proper intervals
      in chronological order without overlap. */
  lemma SlotsTable()
    ensures |Slots| == |SlotStarts| == |SlotEnds| == 6
    ensures forall i :: 0 <= i < |Slots| ==> RowAgrees(Slots[i], SlotStarts[i], SlotEnds[i])
    ensures forall i :: 0 <= i < |Slots| ==> SlotStarts[i] < SlotEnds[i]
    ensures forall i, j :: 0 <= i < j < |Slots| ==> SlotEnds[i] <= SlotStarts[j]
  {
    forall i | 0 <= i < |Slots|
      ensures RowAgrees(Slots[i], SlotStarts[i], SlotEnds[i])
    {
      if i == 0 { RowAgrees0(); }
      else if i == 1 { RowAgrees1(); }
      else if i == 2 { RowAgrees2(); }
      else if i == 3 { RowAgrees3(); }
      else if i == 4 { RowAgrees4(); }
      else { RowAgrees5(); }
    }
  }

  /** No two slots share a key: an earlier slot starts before a later one. */
  lemma SlotKeysDistinct()
    ensures forall i, j :: 0 <= i < j < |Slots| ==> Slots[i].saat != Slots[j].saat
  {
    SlotsTable();
    forall i, j | 0 <= i < j < |Slots|
      ensures Slots[i].saat != Slots[j].saat
    {
      assert RowAgrees(Slots[i], SlotStarts[i], SlotEnds[i]);
      assert RowAgrees(Slots[j], SlotStarts[j], SlotEnds[j]);
    }
  }

  /** Row `s` of the table starts at `start` and ends at `end` minutes, and its
      title and shown length agree with its key. */
  predicate RowAgrees(s: Slot, start: int, end: int) {
    && WellFormedKey(s.saat)
    && StartMinutes(s.saat) == start && EndMinutes(s.saat) == end
    && s.baslik == TitleOf(s.saat)
    && s.sure == LengthLabel(end - start)
  }

  lemma RowAgrees0()
    ensures RowAgrees(Slots[0], 420, 510)
  {
    RowFacts(Slots[0]);
  }

  lemma RowAgrees1()
    ensures RowAgrees(Slots[1], 540, 630)
  {
    RowFacts(Slots[1]);
  }

  lemma RowAgrees2()
    ensures RowAgrees(Slots[2], 660, 720)
  {
    RowFacts(Slots[2]);
  }

  lemma RowAgrees3()
    ensures RowAgrees(Slots[3], 720, 810)
  {
    RowFacts(Slots[3]);
  }

  lemma RowAgrees4()
    ensures RowAgrees(Slots[4], 840, 930)
  {
    RowFacts(Slots[4]);
  }

  lemma RowAgrees5()
    ensures RowAgrees(Slots[5], 960, 1020)
  {
    RowFacts(Slots[5]);
  }

  lemma RowFacts(s: Slot)
    requires WellFormedKey(s.saat) && |s.baslik| == 13
    requires s.baslik[..5] == s.saat[..5] && s.baslik[5..8] == " - " && s.baslik[8..] == s.saat[6..]
    ensures s.baslik == TitleOf(s.saat)
  {
    assert s.baslik == s.baslik[..5] + s.baslik[5..8] + s.baslik[8..];
  }

  /** `saatDurumu[saat]?.dolu`: a slot is full only when its status entry says so;
      a slot without an entry is free. */
  predicate SlotFull(saatDurumu: map<string, bool>, saat: string) {
    saat in saatDurumu && saatDurumu[saat]
  }

  /** The state of the slot step. */
  class SlotPicker {
    var selectedSaat: string
    var saatDurumu: map<string, bool>

    /** Opens with the form's slot, or nothing, selected and no status known. */
    constructor (saatDilimi: string)
      ensures selectedSaat == saatDilimi && saatDurumu == map[]
    {
      selectedSaat := saatDilimi;
      saatDurumu := map[];
    }

    /** `loadSaatDurumu`, run when the form has a date: a successful answer
        replaces the status, a failed one or a thrown call keeps it. */
    method LoadStatus(tarih: string, response: DateSelection.Fetch)
      modifies this`saatDurumu
      ensures saatDurumu == if tarih != "" && response.Answered? && response.success
                            then response.saatler else old(saatDurumu)
    {
      if tarih != "" && response.Answered? && response.success {
        saatDurumu := response.saatler;
      }
    }

    /** `handleSaatSelect`: a full slot is refused, any other becomes the selection. */
    method Select(saat: string)
      modifies this`selectedSaat
      ensures selectedSaat == if SlotFull(saatDurumu, saat) then old(selectedSaat) else saat
    {
      if SlotFull(saatDurumu, saat) {
        return;
      }
      selectedSaat := saat;
    }

    /** `handleSubmit`: without a selection nothing happens; otherwise the slot
        goes into the form and the wizard moves on once. */
    method Submit(w: Wizard)
      requires w.Valid()
      modifies w
      ensures w.Valid()
      ensures selectedSaat == "" ==> w.form == old(w.form) && w.step == old(w.step)
      ensures selectedSaat != "" ==>
        w.form == old(w.form)["saat_dilimi" := Str(selectedSaat)] && w.step == StepAfter(old(w.step), Next)
    {
      if selectedSaat == "" {
        return;
      }
      w.UpdateFormData("saat_dilimi", Str(selectedSaat));
      w.NextStep();
    }
  }

  /** A slot without an entry in the status map is not full, so with no
      status known every slot of the table can be selected. */
  lemma NoStatusNothingFull(saatDurumu: map<string, bool>, saat: string)
    requires saat !in saatDurumu
    ensures !SlotFull(saatDurumu, saat)
  {
  }
}
