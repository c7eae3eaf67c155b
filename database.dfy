/**
  The write side of app.py: the record store with its three tables and the
  two upload directories, and the POST handlers add_internship,
  diary_upload and certificates that check a form and then append one row.

  The clock, the timestamp used in stored file names and werkzeug's
  secure_filename are parameters of the handlers.
*/
module Database {
  import opened Wrappers
  import opened Text
  import opened Uploads
  import opened Records
  import opened Queries

  /** How a POST handler ends: a row was stored under the given id, the
      form was refused (flash and redirect back to the form, nothing
      written), or the handler failed on a missing form field before any
      check (nothing written). */
  datatype Outcome = Stored(id: nat) | Refused | Failed

  function OutcomeOf<T>(g: Gate<T>, id: nat): Outcome {
    match g
    case Pass(_) => Stored(id)
    case Refuse => Refused
    case Crash => Failed
  }

  function InternshipId(r: Internship): nat { r.id }
  function DiaryId(r: Diary): nat { r.id }
  function CertificateId(r: Certificate): nat { r.id }
  function DiaryFilename(r: Diary): string { r.filename }
  function CertificateFilename(r: Certificate): string { r.filename }

  /** A table's invariant, as AUTOINCREMENT and the handlers' checks keep
      it: ids are positive, strictly increase along the table and stay
      below the next id to hand out, and every roll is non-empty with no
      whitespace at either end. */
  ghost predicate Numbered<T>(t: seq<T>, id: T -> nat, roll: T -> string, next: nat) {
    && next >= 1
    && (forall i, j :: 0 <= i < j < |t| ==> id(t[i]) < id(t[j]))
    && (forall i :: 0 <= i < |t| ==> 0 < id(t[i]) < next)
    && (forall i :: 0 <= i < |t| ==> roll(t[i]) != [] && Trimmed(roll(t[i])))
  }

  /** Every row of an upload table names a file that exists in its
      directory. */
  ghost predicate Filed<T>(t: seq<T>, name: T -> string, files: map<string, Bytes>) {
    forall i :: 0 <= i < |t| ==> name(t[i]) in files
  }

  /** Appending a row with the next id and a clean roll keeps a table
      numbered, with the next id advanced by one. */
  lemma NumberedAppend<T>(t: seq<T>, id: T -> nat, roll: T -> string, next: nat, row: T)
    requires Numbered(t, id, roll, next)
    requires id(row) == next && roll(row) != [] && Trimmed(roll(row))
    ensures Numbered(t + [row], id, roll, next + 1)
  {
    var u := t + [row];
    forall i | 0 <= i < |u| ensures roll(u[i]) != [] && Trimmed(roll(u[i])) {
      if i < |t| { assert u[i] == t[i]; }
    }
  }

  /** Saving a row's file and then appending the row keeps every row's file
      in the directory. */
  lemma FiledAppend<T>(t: seq<T>, name: T -> string, files: map<string, Bytes>, row: T, content: Bytes)
    requires Filed(t, name, files)
    ensures Filed(t + [row], name, files[name(row) := content])
  {
    var u := t + [row];
    forall i | 0 <= i < |u| ensures name(u[i]) in files[name(row) := content] {
      if i < |t| { assert u[i] == t[i]; }
    }
  }

  class Store {
    var internships: seq<Internship>
    var diaries: seq<Diary>
    var certificates: seq<Certificate>
    /** The uploads/diaries and uploads/certificates directories: stored
        file name to file content. */
    var diaryFiles: map<string, Bytes>
    var certificateFiles: map<string, Bytes>
    var nextInternshipId: nat
    var nextDiaryId: nat
    var nextCertificateId: nat

    /** The invariant of all three tables and both directories. */
    ghost predicate Valid()
      reads this
    {
      && Numbered(internships, InternshipId, InternshipRoll, nextInternshipId)
      && Numbered(diaries, DiaryId, DiaryRoll, nextDiaryId)
      && Numbered(certificates, CertificateId, CertificateRoll, nextCertificateId)
      && Filed(diaries, DiaryFilename, diaryFiles)
      && Filed(certificates, CertificateFilename, certificateFiles)
    }

    /** init_db on a new database: three empty tables, empty directories. */
    constructor ()
      ensures Valid()
      ensures internships == [] && diaries == [] && certificates == []
      ensures diaryFiles == map[] && certificateFiles == map[]
      ensures nextInternshipId == 1 && nextDiaryId == 1 && nextCertificateId == 1
    {
      internships, diaries, certificates := [], [], [];
      diaryFiles, certificateFiles := map[], map[];
      nextInternshipId, nextDiaryId, nextCertificateId := 1, 1, 1;
    }

    /** add_internship (POST). A form whose roll or student name is blank
        is refused and one that lacks either field fails; neither changes
        the table. Otherwise exactly one row is appended, with the trimmed
        roll and name, the other fields as submitted and the given creation
        time, and the rows already there are left as they were. */
    method AddInternship(form: InternshipForm, now: string) returns (outcome: Outcome)
      requires Valid()
      modifies this`internships, this`nextInternshipId
      ensures Valid()
      ensures outcome == OutcomeOf(CheckInternship(form), old(nextInternshipId))
      ensures CheckInternship(form).Pass? ==>
                && internships == old(internships) + [Internship(
                     old(nextInternshipId),
                     CheckInternship(form).value.roll,
                     CheckInternship(form).value.studentName,
                     form.company, form.startDate, form.endDate, form.note, now)]
                && nextInternshipId == old(nextInternshipId) + 1
      ensures !CheckInternship(form).Pass? ==>
                internships == old(internships) && nextInternshipId == old(nextInternshipId)
    {
      var gate := CheckInternship(form);
      if !gate.Pass? {
        return OutcomeOf(gate, nextInternshipId);
      }
      outcome := Stored(nextInternshipId);
      InsertInternship(Internship(nextInternshipId, gate.value.roll, gate.value.studentName,
                                  form.company, form.startDate, form.endDate, form.note, now));
    }

    /** The INSERT of add_internship: the row, which carries the next id and
        a clean roll, goes at the end of the table. */
    method InsertInternship(row: Internship)
      requires Valid()
      requires row.id == nextInternshipId && row.roll != [] && Trimmed(row.roll)
      modifies this`internships, this`nextInternshipId
      ensures Valid()
      ensures internships == old(internships) + [row]
      ensures nextInternshipId == old(nextInternshipId) + 1
    {
      NumberedAppend(internships, InternshipId, InternshipRoll, nextInternshipId, row);
      internships := internships + [row];
      nextInternshipId := nextInternshipId + 1;
    }

    /** diary_upload (POST). Refused or failed forms write neither a file
        nor a row. Otherwise the file is saved under its stored name (an
        earlier file of the same name is overwritten) and then one row is
        appended whose date is the submitted one, or today when none was
        submitted. */
    method UploadDiary(form: DiaryForm, today: string, stamp: nat, now: string,
                       secure: string -> string) returns (outcome: Outcome)
      requires Valid()
      modifies this`diaries, this`diaryFiles, this`nextDiaryId
      ensures Valid()
      ensures outcome == OutcomeOf(CheckUpload(form.roll, form.file), old(nextDiaryId))
      ensures CheckUpload(form.roll, form.file).Pass? ==>
                var a := CheckUpload(form.roll, form.file).value;
                var name := StoredName(a.roll, stamp, a.file.filename, secure);
                && diaryFiles == old(diaryFiles)[name := a.file.content]
                && diaries == old(diaries) + [Diary(old(nextDiaryId), a.roll, form.title,
                                                    DateOrToday(form.date, today), name, now)]
                && nextDiaryId == old(nextDiaryId) + 1
      ensures !CheckUpload(form.roll, form.file).Pass? ==>
                diaries == old(diaries) && diaryFiles == old(diaryFiles) && nextDiaryId == old(nextDiaryId)
    {
      var gate := CheckUpload(form.roll, form.file);
      if !gate.Pass? {
        return OutcomeOf(gate, nextDiaryId);
      }
      var date := DateOrToday(form.date, today);
      var name := StoredName(gate.value.roll, stamp, gate.value.file.filename, secure);
      outcome := Stored(nextDiaryId);
      SaveDiary(Diary(nextDiaryId, gate.value.roll, form.title, date, name, now), gate.value.file.content);
    }

    /** file.save followed by the INSERT of diary_upload: the content is
        written under the row's file name, then the row, which carries the
        next id and a clean roll, goes at the end of the table. */
    method SaveDiary(row: Diary, content: Bytes)
      requires Valid()
      requires row.id == nextDiaryId && row.roll != [] && Trimmed(row.roll)
      modifies this`diaries, this`diaryFiles, this`nextDiaryId
      ensures Valid()
      ensures diaryFiles == old(diaryFiles)[row.filename := content]
      ensures diaries == old(diaries) + [row]
      ensures nextDiaryId == old(nextDiaryId) + 1
    {
      NumberedAppend(diaries, DiaryId, DiaryRoll, nextDiaryId, row);
      FiledAppend(diaries, DiaryFilename, diaryFiles, row, content);
      diaryFiles := diaryFiles[row.filename := content];
      diaries := diaries + [row];
      nextDiaryId := nextDiaryId + 1;
    }

    /** certificates (POST), the same as UploadDiary for the certificates
        table and directory. */
    method UploadCertificate(form: CertificateForm, today: string, stamp: nat, now: string,
                             secure: string -> string) returns (outcome: Outcome)
      requires Valid()
      modifies this`certificates, this`certificateFiles, this`nextCertificateId
      ensures Valid()
      ensures outcome == OutcomeOf(CheckUpload(form.roll, form.file), old(nextCertificateId))
      ensures CheckUpload(form.roll, form.file).Pass? ==>
                var a := CheckUpload(form.roll, form.file).value;
                var name := StoredName(a.roll, stamp, a.file.filename, secure);
                && certificateFiles == old(certificateFiles)[name := a.file.content]
                && certificates == old(certificates) + [Certificate(old(nextCertificateId), a.roll,
                                                          form.certType, form.issuedBy,
                                                          DateOrToday(form.date, today), name, now)]
                && nextCertificateId == old(nextCertificateId) + 1
      ensures !CheckUpload(form.roll, form.file).Pass? ==>
                && certificates == old(certificates) && certificateFiles == old(certificateFiles)
                && nextCertificateId == old(nextCertificateId)
    {
      var gate := CheckUpload(form.roll, form.file);
      if !gate.Pass? {
        return OutcomeOf(gate, nextCertificateId);
      }
      var date := DateOrToday(form.date, today);
      var name := StoredName(gate.value.roll, stamp, gate.value.file.filename, secure);
      outcome := Stored(nextCertificateId);
      SaveCertificate(Certificate(nextCertificateId, gate.value.roll, form.certType, form.issuedBy,
                                  date, name, now), gate.value.file.content);
    }

    /** file.save followed by the INSERT of certificates, as SaveDiary. */
    method SaveCertificate(row: Certificate, content: Bytes)
      requires Valid()
      requires row.id == nextCertificateId && row.roll != [] && Trimmed(row.roll)
      modifies this`certificates, this`certificateFiles, this`nextCertificateId
      ensures Valid()
      ensures certificateFiles == old(certificateFiles)[row.filename := content]
      ensures certificates == old(certificates) + [row]
      ensures nextCertificateId == old(nextCertificateId) + 1
    {
      NumberedAppend(certificates, CertificateId, CertificateRoll, nextCertificateId, row);
      FiledAppend(certificates, CertificateFilename, certificateFiles, row, content);
      certificateFiles := certificateFiles[row.filename := content];
      certificates := certificates + [row];
      nextCertificateId := nextCertificateId + 1;
    }
  }

  /** The dashboard lists two rows by roll, whichever was inserted first. */
  lemma DashboardOfTwo(a: Internship, b: Internship)
    requires Collation.Lt(b.roll, a.roll)
    ensures Dashboard([a, b]) == [b, a]
  {
    var rows := Dashboard([a, b]);
    assert multiset(rows) == multiset{a, b};
    assert |rows| == 2;
    assert rows[0] in multiset(rows) && rows[1] in multiset(rows);
    Collation.LtAsymmetric(b.roll, a.roll);
    assert rows[0] == b;
    assert rows[1] == a by {
      assert multiset{rows[0], rows[1]} == multiset(rows);
    }
  }

  /** Two accepted internship forms submitted to a new store, the second
      with a roll that sorts first: the dashboard shows the second
      submission's row first, then the first's. */
  method DashboardScenario(f1: InternshipForm, f2: InternshipForm) returns (rows: seq<Internship>)
    requires CheckInternship(f1).Pass? && CheckInternship(f2).Pass?
    requires Collation.Lt(CheckInternship(f2).value.roll, CheckInternship(f1).value.roll)
    ensures |rows| == 2
    ensures rows[0].roll == CheckInternship(f2).value.roll && rows[0].id == 2
    ensures rows[1].roll == CheckInternship(f1).value.roll && rows[1].id == 1
  {
    var t := SubmitTwo(f1, f2);
    rows := DashboardOfPair(t);
  }

  /** The dashboard query on a table of two rows whose second roll sorts
      first: the second row is listed first. */
  method DashboardOfPair(t: seq<Internship>) returns (rows: seq<Internship>)
    requires |t| == 2 && Collation.Lt(t[1].roll, t[0].roll)
    ensures rows == Dashboard(t) && rows == [t[1], t[0]]
  {
    assert t == [t[0], t[1]];
    DashboardOfTwo(t[0], t[1]);
    rows := Dashboard(t);
  }

  /** The internships table after two accepted forms are submitted to a new
      store: the two rows in submission order, with ids 1 and 2 and the
      trimmed rolls. */
  method SubmitTwo(f1: InternshipForm, f2: InternshipForm) returns (t: seq<Internship>)
    requires CheckInternship(f1).Pass? && CheckInternship(f2).Pass?
    ensures |t| == 2
    ensures t[0].roll == CheckInternship(f1).value.roll && t[0].id == 1
    ensures t[1].roll == CheckInternship(f2).value.roll && t[1].id == 2
  {
    var store := SubmitOne(f1);
    var first := store.internships[0];
    var o2 := store.AddInternship(f2, "t2");
    assert store.internships[0] == first;
    t := store.internships;
  }

  /** A new store after one accepted form is submitted: one row, with id 1
      and the trimmed roll. */
  method SubmitOne(f: InternshipForm) returns (store: Store)
    requires CheckInternship(f).Pass?
    ensures fresh(store) && store.Valid()
    ensures |store.internships| == 1 && store.nextInternshipId == 2
    ensures store.internships[0].roll == CheckInternship(f).value.roll && store.internships[0].id == 1
  {
    store := new Store();
    var o := store.AddInternship(f, "t1");
  }

  /** An accepted diary form submitted to a new store: the diary list shows
      that one row, with the trimmed roll, and its stored name holds exactly
      the uploaded bytes. */
  method DiaryScenario(form: DiaryForm, today: string, stamp: nat, now: string,
                       secure: string -> string) returns (rows: seq<Diary>, stored: Option<Bytes>)
    requires CheckUpload(form.roll, form.file).Pass?
    ensures |rows| == 1 && rows[0].roll == CheckUpload(form.roll, form.file).value.roll
    ensures stored == Some(form.file.value.content)
  {
    var store := new Store();
    CheckUploadStrips(form.roll, form.file);
    var outcome := store.UploadDiary(form, today, stamp, now, secure);
    var row := store.diaries[0];
    assert store.diaries == [row];
    rows := RecentDiaries(store.diaries);
    assert rows[0] in multiset([row]);
    stored := if rows[0].filename in store.diaryFiles then Some(store.diaryFiles[rows[0].filename]) else None;
  }
}
