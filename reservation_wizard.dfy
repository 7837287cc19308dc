/** The six-step reservation wizard of the reservation page: the current step
    counter, the form record that the step components fill in field by field,
    and the navigation between steps. */
module ReservationWizard {

  /** One attendee of the roster. */
  datatype Student = Student(adSoyad: string, telefon: string, sinif: string, cinsiyet: string)

  /** One entry of `formData.mekanlar`: a venue and the number of attendees
      declared for it, in the object's insertion order. */
  datatype VenueCount = VenueCount(venue: string, count: int)

  /** The values the form's fields hold: strings, the venue counts object and
      the roster array. */
  datatype FormValue = Str(s: string) | Venues(counts: seq<VenueCount>) | Roster(students: seq<Student>)

  type Form = map<string, FormValue>

  const TotalSteps: int := 6

  predicate IsStep(s: int) {
    1 <= s <= TotalSteps
  }

  /** The form the page starts with. There is no `kurum_tipi` field. */
  function InitialForm(): (f: Form)
    ensures f.Keys == {"yetkili_ad_soyad", "kurum_adi", "il", "ilce", "telefon", "tarih",
                       "saat_dilimi", "mekanlar", "aciklama", "ogrenciler"}
    ensures "kurum_tipi" !in f
    ensures "mekanlar" in f && "ogrenciler" in f
    ensures f["mekanlar"] == Venues([]) && f["ogrenciler"] == Roster([])
    ensures forall k :: k in f && k != "mekanlar" && k != "ogrenciler" ==> f[k] == Str("")
  {
    map["yetkili_ad_soyad" := Str(""), "kurum_adi" := Str(""), "il" := Str(""), "ilce" := Str(""),
        "telefon" := Str(""), "tarih" := Str(""), "saat_dilimi" := Str(""),
        "mekanlar" := Venues([]), "aciklama" := Str(""), "ogrenciler" := Roster([])]
  }

  /** What can move the step counter: the step components' next and back
      buttons, and a click on an entry of the sidebar's step list. */
  datatype NavEvent = Next | Prev | SidebarClick(target: int)

  /** The sidebar lists the steps 1 to 6, so a click can only name one of them. */
  predicate FromSidebar(e: NavEvent) {
    e.SidebarClick? ==> IsStep(e.target)
  }

  /** The step after one event: `nextStep` below the last step, `prevStep`
      above the first, and a sidebar click only to an earlier step. */
  function StepAfter(step: int, e: NavEvent): (r: int)
    ensures e == Next ==> (if step < TotalSteps then r == step + 1 else r == step)
    ensures e == Prev ==> (if step > 1 then r == step - 1 else r == step)
    ensures e.SidebarClick? ==> (if e.target < step then r == e.target else r == step)
    ensures IsStep(step) && FromSidebar(e) ==> IsStep(r)
  {
    match e
    case Next => if step < TotalSteps then step + 1 else step
    case Prev => if step > 1 then step - 1 else step
    case SidebarClick(t) => if t < step then t else step
  }

  /** The step after a sequence of events. */
  function Run(step: int, events: seq<NavEvent>): int
    decreases |events|
  {
    if events == [] then step else Run(StepAfter(step, events[0]), events[1..])
  }

  /** From any step in range, every sequence of sidebar clicks and next/back
      presses leaves the counter in 1..6. */
  lemma {:induction false} RunStaysInRange(step: int, events: seq<NavEvent>)
    requires IsStep(step)
    requires forall i :: 0 <= i < |events| ==> FromSidebar(events[i])
    ensures IsStep(Run(step, events))
    decreases |events|
  {
    if events != [] {
      RunStaysInRange(StepAfter(step, events[0]), events[1..]);
    }
  }

  /** A back press undoes a next press taken below the last step. */
  lemma PrevUndoesNext(step: int)
    requires 1 <= step < TotalSteps
    ensures StepAfter(StepAfter(step, Next), Prev) == step
  {
  }

  /** `k` next presses advance the counter by `k`, stopping at the last step. */
  lemma {:induction false} RunOfNexts(step: int, k: nat)
    requires IsStep(step)
    ensures Run(step, seq(k, _ => Next)) == if step + k <= TotalSteps then step + k else TotalSteps
    decreases k
  {
    if k > 0 {
      assert seq(k, _ => Next)[1..] == seq(k - 1, _ => Next);
      RunOfNexts(StepAfter(step, Next), k - 1);
    }
  }

  /** `k` back presses move the counter back by `k`, stopping at the first step. */
  lemma {:induction false} RunOfPrevs(step: int, k: nat)
    requires IsStep(step)
    ensures Run(step, seq(k, _ => Prev)) == if step - k >= 1 then step - k else 1
    decreases k
  {
    if k > 0 {
      assert seq(k, _ => Prev)[1..] == seq(k - 1, _ => Prev);
      RunOfPrevs(StepAfter(step, Prev), k - 1);
    }
  }

  /** The state of the reservation page. */
  class Wizard {
    /** `currentStep`. */
    var step: int
    /** `formData`. */
    var form: Form

    ghost predicate Valid()
      reads this
    {
      IsStep(step)
    }

    constructor ()
      ensures Valid()
      ensures step == 1 && form == InitialForm()
    {
      step := 1;
      form := InitialForm();
    }

    /** `nextStep`. */
    method NextStep()
      requires Valid()
      modifies this`step
      ensures Valid()
      ensures step == StepAfter(old(step), Next)
    {
      if step < TotalSteps {
        step := step + 1;
      }
    }

    /** `prevStep`. */
    method PrevStep()
      requires Valid()
      modifies this`step
      ensures Valid()
      ensures step == StepAfter(old(step), Prev)
    {
      if step > 1 {
        step := step - 1;
      }
    }

    /** A click on the sidebar entry of step `target`. */
    method ClickSidebar(target: int)
      requires Valid() && IsStep(target)
      modifies this`step
      ensures Valid()
      ensures step == StepAfter(old(step), SidebarClick(target))
    {
      if target < step {
        step := target;
      }
    }

    /** `updateFormData(field, value)`: that field gets the value, every other
        field keeps its own. */
    method UpdateFormData(field: string, value: FormValue)
      modifies this`form
      ensures form.Keys == old(form).Keys + {field}
      ensures form[field] == value
      ensures forall f :: f in old(form) && f != field ==> form[f] == old(form)[f]
    {
      form := form[field := value];
    }
  }
}
