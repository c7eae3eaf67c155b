/**
  The rows of the three tables, the three forms that create them, and the
  checks each POST handler makes before it writes anything
  (add_internship, diary_upload and certificates in app.py).
*/
module Records {
  import opened Wrappers
  import opened Text
  import opened Uploads
  import Rolls

  type Bytes = seq<bv8>

  /** A row of the internships table. */
  datatype Internship = Internship(
    id: nat,
    roll: string,
    studentName: string,
    company: Option<string>,
    startDate: Option<string>,
    endDate: Option<string>,
    note: Option<string>,
    createdAt: string)

  /** A row of the diaries table. */
  datatype Diary = Diary(
    id: nat,
    roll: string,
    title: Option<string>,
    date: string,
    filename: string,
    uploadedAt: string)

  /** A row of the certificates table. */
  datatype Certificate = Certificate(
    id: nat,
    roll: string,
    certType: Option<string>,
    issuedBy: Option<string>,
    date: string,
    filename: string,
    uploadedAt: string)

  /** The fields of a submitted form, as request.form.get returns them:
      None when the browser did not send the field. */
  datatype InternshipForm = InternshipForm(
    roll: Option<string>,
    studentName: Option<string>,
    company: Option<string>,
    startDate: Option<string>,
    endDate: Option<string>,
    note: Option<string>)

  /** An uploaded file part: its client-side name and its bytes. */
  datatype Upload = Upload(filename: string, content: Bytes)

  datatype DiaryForm = DiaryForm(
    roll: Option<string>,
    title: Option<string>,
    date: Option<string>,
    file: Option<Upload>)

  datatype CertificateForm = CertificateForm(
    roll: Option<string>,
    certType: Option<string>,
    issuedBy: Option<string>,
    date: Option<string>,
    file: Option<Upload>)

  /** What a handler's checks decide: go on with the cleaned values, refuse
      with a flash message and a redirect back to the form, or fail before
      any check because .strip() was called on a missing field (an
      unhandled exception in the handler). */
  datatype Gate<T> = Pass(value: T) | Refuse | Crash

  /** Trimmed roll and student name of an internship form that passes. */
  datatype Names = Names(roll: string, studentName: string)

  /** add_internship's checks: both roll and student name are stripped, and
      both must be non-empty afterwards. */
  function CheckInternship(f: InternshipForm): (g: Gate<Names>)
    ensures g.Crash? <==> f.roll.None? || f.studentName.None?
    ensures g.Pass? <==> && f.roll.Some? && !Blank(f.roll.value)
                         && f.studentName.Some? && !Blank(f.studentName.value)
    ensures g.Pass? ==> g.value.roll != [] && Trimmed(g.value.roll)
  {
    if f.roll.None? || f.studentName.None? then Crash
    else
      var roll := Strip(f.roll.value);
      var name := Strip(f.studentName.value);
      if roll == [] || name == [] then Refuse else Pass(Names(roll, name))
  }

  /** What a passing internship form stores: its roll and student name with
      the surrounding whitespace removed. */
  lemma CheckInternshipStrips(f: InternshipForm)
    requires CheckInternship(f).Pass?
    ensures CheckInternship(f).value == Names(Strip(f.roll.value), Strip(f.studentName.value))
    ensures CheckInternship(f).value.studentName != [] && Trimmed(CheckInternship(f).value.studentName)
  {
  }

  /** Python's truth value of a FileStorage: false when no file part was
      sent or when it has an empty file name. */
  predicate FilePresent(file: Option<Upload>) {
    file.Some? && file.value.filename != []
  }

  /** The trimmed roll and the file of an upload form that passes. */
  datatype Accepted = Accepted(roll: string, file: Upload)

  /** The checks diary_upload and certificates share: the roll is stripped
      (a missing roll field fails outright), then it must be non-empty, the
      file must be present and its name must have an allowed extension. */
  function CheckUpload(roll: Option<string>, file: Option<Upload>): (g: Gate<Accepted>)
    ensures g.Crash? <==> roll.None?
    ensures g.Pass? <==> && roll.Some? && !Blank(roll.value)
                         && FilePresent(file) && AllowedFile(file.value.filename)
    ensures g.Pass? ==> g.value.roll != [] && Trimmed(g.value.roll)
  {
    if roll.None? then Crash
    else
      var r := Strip(roll.value);
      if r == [] || !FilePresent(file) || !AllowedFile(file.value.filename) then Refuse
      else Pass(Accepted(r, file.value))
  }

  /** What a passing upload form stores: its roll with the surrounding
      whitespace removed, and the file exactly as sent. */
  lemma CheckUploadStrips(roll: Option<string>, file: Option<Upload>)
    requires CheckUpload(roll, file).Pass?
    ensures CheckUpload(roll, file).value == Accepted(Strip(roll.value), file.value)
  {
  }

  /** A form whose roll and student name are already clean passes with
      them unchanged. */
  lemma CleanInternshipFormPasses(f: InternshipForm)
    requires f.roll.Some? && f.roll.value != [] && Trimmed(f.roll.value)
    requires f.studentName.Some? && f.studentName.value != [] && Trimmed(f.studentName.value)
    ensures CheckInternship(f) == Pass(Names(f.roll.value, f.studentName.value))
  {
    StripOfTrimmed(f.roll.value);
    StripOfTrimmed(f.studentName.value);
  }

  /** An upload whose roll is already clean and whose file is present with
      an allowed name passes with the roll unchanged. */
  lemma CleanUploadPasses(roll: Option<string>, file: Option<Upload>)
    requires roll.Some? && roll.value != [] && Trimmed(roll.value)
    requires FilePresent(file) && AllowedFile(file.value.filename)
    ensures CheckUpload(roll, file) == Pass(Accepted(roll.value, file.value))
  {
    StripOfTrimmed(roll.value);
  }

  /** The name check is implied by the extension check: a present file
      whose name has an allowed extension is all an upload needs. */
  lemma UploadNeedsOnlyAllowedName(roll: Option<string>, file: Option<Upload>)
    ensures CheckUpload(roll, file).Pass? <==>
              roll.Some? && !Blank(roll.value) && file.Some? && AllowedFile(file.value.filename)
  {
  }

  /** request.form.get("date") or today: an absent or empty date field is
      replaced by the supplied current date. */
  function DateOrToday(date: Option<string>, today: string): string {
    if date.Some? && date.value != [] then date.value else today
  }

  /** The name the upload is saved under:
      secure_filename(f"{roll}_{int(timestamp)}_{file.filename}"), with
      secure_filename supplied by the caller. */
  function StoredName(roll: string, stamp: nat, original: string, secure: string -> string): string {
    secure(roll + "_" + Rolls.Decimal(stamp) + "_" + original)
  }
}
