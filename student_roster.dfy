/** Step 6 of the reservation wizard: the head count declared per venue, the
    mapping of spreadsheet rows to students, the upload count check, the
    roster validation, the downloadable template and the reservation payload. */
module StudentRoster {
  import opened Wrappers
  import opened Text
  import opened ReservationWizard

  // -------------------------------------------------------------- head count

  /** `Object.values(mekanlar).reduce((a, b) => a + b, 0)`. */
  function Total(counts: seq<VenueCount>): int
    decreases |counts|
  {
    if counts == [] then 0 else Total(counts[..|counts| - 1]) + counts[|counts| - 1].count
  }

  /** The sum splits over a concatenation. */
  lemma {:induction false} TotalAppend(a: seq<VenueCount>, b: seq<VenueCount>)
    ensures Total(a + b) == Total(a) + Total(b)
    decreases |b|
  {
    if b == [] {
      assert a + b == a;
    } else {
      assert (a + b)[..|a + b| - 1] == a + b[..|b| - 1];
      assert (a + b)[|a + b| - 1] == b[|b| - 1];
      TotalAppend(a, b[..|b| - 1]);
    }
  }

  /** With non-negative counts the total bounds each venue's count. */
  lemma {:induction false} TotalBoundsEach(counts: seq<VenueCount>, i: int)
    requires forall j :: 0 <= j < |counts| ==> counts[j].count >= 0
    requires 0 <= i < |counts|
    ensures 0 <= counts[i].count <= Total(counts)
    decreases |counts|
  {
    TotalNonNegative(counts[..|counts| - 1]);
    if i < |counts| - 1 {
      TotalBoundsEach(counts[..|counts| - 1], i);
    }
  }

  lemma {:induction false} TotalNonNegative(counts: seq<VenueCount>)
    requires forall j :: 0 <= j < |counts| ==> counts[j].count >= 0
    ensures Total(counts) >= 0
    decreases |counts|
  {
    if counts != [] {
      TotalNonNegative(counts[..|counts| - 1]);
    }
  }

  /** `toplamKisi` of a form: the total over `formData.mekanlar`, 0 when the
      object is empty. */
  function PartySize(form: Form): (n: int)
    requires "mekanlar" in form && form["mekanlar"].Venues?
    ensures form["mekanlar"].counts == [] ==> n == 0
  {
    Total(form["mekanlar"].counts)
  }

  // -------------------------------------------------------------- rows

  /** A spreadsheet row as `sheet_to_json` yields it: column header to cell text. */
  type Row = map<string, string>

  /** `row[first] || row[second] || fallback`: the first of the two cells that
      is present and non-empty. */
  function Pick(row: Row, first: string, second: string, fallback: string): (v: string)
    ensures first in row && row[first] != "" ==> v == row[first]
    ensures !(first in row && row[first] != "") && second in row && row[second] != "" ==> v == row[second]
    ensures !(first in row && row[first] != "") && !(second in row && row[second] != "") ==> v == fallback
  {
    if first in row && row[first] != "" then row[first]
    else if second in row && row[second] != "" then row[second]
    else fallback
  }

  /** One row to one student: the Turkish header first, then the snake_case
      one; gender defaults to `erkek` and is lower-cased. */
  function RowToStudent(row: Row): Student {
    Student(
      Pick(row, "Ad Soyad", "ad_soyad", ""),
      Pick(row, "Telefon", "telefon", ""),
      Pick(row, "Sınıf", "sinif", ""),
      ToLower(Pick(row, "Cinsiyet", "cinsiyet", "erkek")))
  }

  /** `jsonData.map(...)`: one student per row, in order. */
  function MapRows(rows: seq<Row>): (students: seq<Student>)
    ensures |students| == |rows|
    ensures forall i :: 0 <= i < |rows| ==> students[i] == RowToStudent(rows[i])
  {
    seq(|rows|, i requires 0 <= i < |rows| => RowToStudent(rows[i]))
  }

  /** The mapped gender is never empty and has no upper-case ASCII letter. */
  lemma GenderNormalised(row: Row)
    ensures var c := RowToStudent(row).cinsiyet;
      c != "" && ToLower(c) == c
  {
    ToLowerIdempotent(Pick(row, "Cinsiyet", "cinsiyet", "erkek"));
  }

  /** A row with neither header for a field gives that field as empty. */
  lemma MissingColumnsGiveEmptyFields(row: Row)
    requires "Ad Soyad" !in row && "ad_soyad" !in row
    ensures RowToStudent(row).adSoyad == ""
  {
  }

  // -------------------------------------------------------------- validation

  /** A student with a name and a class, the two fields `validateForm` demands. */
  predicate Complete(s: Student) {
    s.adSoyad != "" && s.sinif != ""
  }

  /** The preview's count, `ogrenciler.filter(o => o.ad_soyad && o.sinif).length`. */
  function CountComplete(roster: seq<Student>): (n: nat)
    ensures n <= |roster|
    decreases |roster|
  {
    if roster == [] then 0
    else CountComplete(roster[..|roster| - 1]) + (if Complete(roster[|roster| - 1]) then 1 else 0)
  }

  /** Every student counts exactly when all of them are complete. */
  lemma {:induction false} CountCompleteAll(roster: seq<Student>)
    ensures CountComplete(roster) == |roster| <==> forall i :: 0 <= i < |roster| ==> Complete(roster[i])
    decreases |roster|
  {
    if roster != [] {
      var init := roster[..|roster| - 1];
      CountCompleteAll(init);
      assert forall i :: 0 <= i < |init| ==> init[i] == roster[i];
    }
  }

  /** The message `validateForm` shows: the head count it expects, or the
      1-based number of the first student missing a field. */
  datatype Alert = CountMismatch(expected: int) | MissingFields(ordinal: int)

  /** `validateForm`: first the length against the head count, then the
      students in order, stopping at the first without a name or a class. The
      phone and the gender are not checked. */
  method ValidateForm(ogrenciler: seq<Student>, toplamKisi: int) returns (ok: bool, alert: Option<Alert>)
    ensures ok <==> |ogrenciler| == toplamKisi && forall i :: 0 <= i < |ogrenciler| ==> Complete(ogrenciler[i])
    ensures ok ==> alert == None
    ensures |ogrenciler| != toplamKisi ==> alert == Some(CountMismatch(toplamKisi))
    ensures |ogrenciler| == toplamKisi && !ok ==>
      && alert.Some? && alert.value.MissingFields?
      && 1 <= alert.value.ordinal <= |ogrenciler|
      && !Complete(ogrenciler[alert.value.ordinal - 1])
      && forall j :: 0 <= j < alert.value.ordinal - 1 ==> Complete(ogrenciler[j])
  {
    if |ogrenciler| != toplamKisi {
      return false, Some(CountMismatch(toplamKisi));
    }
    var i := 0;
    while i < |ogrenciler|
      invariant 0 <= i <= |ogrenciler|
      invariant forall j :: 0 <= j < i ==> Complete(ogrenciler[j])
    {
      var ogr := ogrenciler[i];
      if ogr.adSoyad == "" || ogr.sinif == "" {
        return false, Some(MissingFields(i + 1));
      }
      i := i + 1;
    }
    return true, None;
  }

  /** The roster passes exactly when the preview shows as many complete
      students as the head count, and that is every student. */
  lemma PreviewAgreesWithValidation(roster: seq<Student>, toplamKisi: int)
    ensures (|roster| == toplamKisi && forall i :: 0 <= i < |roster| ==> Complete(roster[i]))
            <==> (|roster| == toplamKisi && CountComplete(roster) == toplamKisi)
  {
    CountCompleteAll(roster);
  }

  // -------------------------------------------------------------- template

  /** `handleExcelIndir`: one sample row per expected student. */
  function TemplateRows(n: nat): (rows: seq<Row>)
    ensures |rows| == n
  {
    seq(n, i requires 0 <= i => map["Ad Soyad" := "Öğrenci " + NatToString(i + 1), "Telefon" := "05551234567",
                    "Sınıf" := "9-A", "Cinsiyet" := "erkek"])
  }

  /** Uploading the template back gives `n` complete students, so it passes
      the upload count check and the validation for a head count of `n`. */
  lemma TemplateRoundTrip(n: nat)
    ensures var students := MapRows(TemplateRows(n));
      && |students| == n
      && (forall i :: 0 <= i < n ==>
            && students[i].adSoyad == "Öğrenci " + NatToString(i + 1)
            && students[i].sinif == "9-A" && students[i].telefon == "05551234567"
            && students[i].cinsiyet == "erkek")
      && (forall i :: 0 <= i < n ==> Complete(students[i]))
  {
    var rows := TemplateRows(n);
    forall i | 0 <= i < n
      ensures RowToStudent(rows[i]).cinsiyet == "erkek"
    {
      assert Pick(rows[i], "Cinsiyet", "cinsiyet", "erkek") == "erkek";
      assert ToLower("erkek") == "erkek";
    }
  }

  // -------------------------------------------------------------- payload

  /** The fields copied from the form into the reservation as they are. */
  const CopiedFields: set<string> :=
    {"yetkili_ad_soyad", "kurum_adi", "kurum_tipi", "il", "ilce", "telefon", "tarih", "saat_dilimi", "mekanlar"}

  /** `formData.aciklama || ''`: a missing or empty note becomes the empty string. */
  function NoteOf(form: Form): (v: FormValue)
    ensures "aciklama" in form && form["aciklama"] != Str("") ==> v == form["aciklama"]
    ensures !("aciklama" in form && form["aciklama"] != Str("")) ==> v == Str("")
  {
    if "aciklama" in form && form["aciklama"] != Str("") then form["aciklama"] else Str("")
  }

  /** The reservation object as it is sent: a copied field the form does not
      have is left out, as an `undefined` property is when serialised. */
  function Payload(form: Form, ogrenciler: seq<Student>): (p: map<string, FormValue>)
    ensures p.Keys == (CopiedFields * form.Keys) + {"aciklama", "ogrenciler"}
    ensures forall k :: k in CopiedFields && k in form ==> p[k] == form[k]
    ensures p["aciklama"] == NoteOf(form) && p["ogrenciler"] == Roster(ogrenciler)
  {
    (map k | k in CopiedFields && k in form :: form[k])["aciklama" := NoteOf(form)]["ogrenciler" := Roster(ogrenciler)]
  }

  /** A form that went through the wizard from its initial state carries no
      `kurum_tipi`, so neither does the payload. */
  lemma InitialFormHasNoInstitutionType(ogrenciler: seq<Student>)
    ensures "kurum_tipi" !in Payload(InitialForm(), ogrenciler)
  {
  }

  // -------------------------------------------------------------- state

  /** The state of the roster step: the students and whether a file was loaded. */
  class RosterForm {
    var ogrenciler: seq<Student>
    var excelYuklendi: bool

    /** Starts from the form's roster, or an empty one. */
    constructor (form: Form)
      ensures ogrenciler == (if "ogrenciler" in form && form["ogrenciler"].Roster? then form["ogrenciler"].students else [])
      ensures !excelYuklendi
    {
      ogrenciler := if "ogrenciler" in form && form["ogrenciler"].Roster? then form["ogrenciler"].students else [];
      excelYuklendi := false;
    }

    /** `handleExcelYukle` on a parsed sheet: a row count different from the
        head count is refused and changes nothing. */
    method Upload(rows: seq<Row>, toplamKisi: int)
      modifies this
      ensures |rows| != toplamKisi ==> ogrenciler == old(ogrenciler) && excelYuklendi == old(excelYuklendi)
      ensures |rows| == toplamKisi ==> ogrenciler == MapRows(rows) && excelYuklendi
    {
      var excelOgrenciler := MapRows(rows);
      if |excelOgrenciler| != toplamKisi {
        return;
      }
      ogrenciler := excelOgrenciler;
      excelYuklendi := true;
    }

    /** The new-file button clears the roster. */
    method Reset()
      modifies this
      ensures ogrenciler == [] && !excelYuklendi
    {
      excelYuklendi := false;
      ogrenciler := [];
    }

    /** `handleSubmit`: the button is disabled until a file is loaded; a roster
        that fails validation sends nothing; otherwise the payload is sent. */
    method Submit(form: Form, toplamKisi: int) returns (sent: Option<map<string, FormValue>>)
      ensures !excelYuklendi ==> sent == None
      ensures excelYuklendi ==>
        (sent.Some? <==> |ogrenciler| == toplamKisi && forall i :: 0 <= i < |ogrenciler| ==> Complete(ogrenciler[i]))
      ensures sent.Some? ==> sent.value == Payload(form, ogrenciler)
    {
      if !excelYuklendi {
        return None;
      }
      var ok, _ := ValidateForm(ogrenciler, toplamKisi);
      if !ok {
        return None;
      }
      return Some(Payload(form, ogrenciler));
    }
  }

  /** After a successful upload the roster passes validation exactly when
      every row gives a name and a class. */
  lemma UploadedRosterValidation(rows: seq<Row>, toplamKisi: int)
    requires |rows| == toplamKisi
    ensures var students := MapRows(rows);
      (forall i :: 0 <= i < |students| ==> Complete(students[i])) <==>
      (forall i :: 0 <= i < |rows| ==>
         Pick(rows[i], "Ad Soyad", "ad_soyad", "") != "" && Pick(rows[i], "Sınıf", "sinif", "") != "")
  {
    var students := MapRows(rows);
    forall i | 0 <= i < |rows|
      ensures Complete(students[i]) <==>
        Pick(rows[i], "Ad Soyad", "ad_soyad", "") != "" && Pick(rows[i], "Sınıf", "sinif", "") != ""
    {
      assert students[i] == RowToStudent(rows[i]);
    }
  }
}
