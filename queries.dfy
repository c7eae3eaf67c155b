/**
  The read side of app.py: the SELECT statements behind the dashboard, the
  diary and certificate lists and the two printable views, over tables held
  as sequences of rows, and the presence checklist print_certificates
  builds from its query result.
*/
module Queries {
  import opened Collation
  import opened Sorting
  import opened Rolls
  import opened Records

  /** LIMIT of the diary and certificate lists. */
  const ListLimit: nat := 50

  function InternshipRoll(r: Internship): string { r.roll }
  function DiaryRoll(r: Diary): string { r.roll }
  function DiaryUploadedAt(r: Diary): string { r.uploadedAt }
  function CertificateRoll(r: Certificate): string { r.roll }
  function CertificateUploadedAt(r: Certificate): string { r.uploadedAt }

  predicate PrintableDiary(r: Diary) { r.roll in PrintableRolls() }
  predicate PrintableCertificate(r: Certificate) { r.roll in PrintableRolls() }

  /** dashboard: SELECT * FROM internships ORDER BY roll. Every row, in
      text order of roll. */
  function Dashboard(t: seq<Internship>): (r: seq<Internship>)
    ensures multiset(r) == multiset(t)
    ensures forall i, j :: 0 <= i < j < |r| ==> Le(r[i].roll, r[j].roll)
  {
    SortBySorted(t, InternshipRoll, Ascending);
    SortBy(t, InternshipRoll, Ascending)
  }

  /** A row just inserted shows up on the dashboard, which stays in roll
      order. */
  lemma DashboardShowsInserted(t: seq<Internship>, row: Internship)
    ensures row in Dashboard(t + [row])
  {
    assert row in multiset(t + [row]);
    assert row in multiset(Dashboard(t + [row]));
  }

  /** diary_upload (GET): SELECT * FROM diaries ORDER BY uploaded_at DESC
      LIMIT 50. At most 50 rows, all from the table, newest first, and no
      row left out is newer than a row shown. */
  function RecentDiaries(t: seq<Diary>): (r: seq<Diary>)
    ensures |r| == if |t| < ListLimit then |t| else ListLimit
    ensures multiset(r) <= multiset(t)
    ensures forall i, j :: 0 <= i < j < |r| ==> Le(r[j].uploadedAt, r[i].uploadedAt)
    ensures forall x, y :: x in multiset(t) - multiset(r) && y in r ==> Le(x.uploadedAt, y.uploadedAt)
  {
    var sorted := SortBy(t, DiaryUploadedAt, Descending);
    SortBySorted(t, DiaryUploadedAt, Descending);
    TakeOfSortedIsSorted(sorted, ListLimit, DiaryUploadedAt, Descending);
    TakeOfSortedIsTop(sorted, ListLimit, DiaryUploadedAt, Descending);
    Take(sorted, ListLimit)
  }

  /** certificates (GET): SELECT * FROM certificates ORDER BY uploaded_at
      DESC LIMIT 50, with the same guarantees as RecentDiaries. */
  function RecentCertificates(t: seq<Certificate>): (r: seq<Certificate>)
    ensures |r| == if |t| < ListLimit then |t| else ListLimit
    ensures multiset(r) <= multiset(t)
    ensures forall i, j :: 0 <= i < j < |r| ==> Le(r[j].uploadedAt, r[i].uploadedAt)
    ensures forall x, y :: x in multiset(t) - multiset(r) && y in r ==> Le(x.uploadedAt, y.uploadedAt)
  {
    var sorted := SortBy(t, CertificateUploadedAt, Descending);
    SortBySorted(t, CertificateUploadedAt, Descending);
    TakeOfSortedIsSorted(sorted, ListLimit, CertificateUploadedAt, Descending);
    TakeOfSortedIsTop(sorted, ListLimit, CertificateUploadedAt, Descending);
    Take(sorted, ListLimit)
  }

  /** print_diary: SELECT * FROM diaries WHERE roll IN (ROLLS_37_54) ORDER BY
      roll. Exactly the rows with a printable roll, each as often as in the
      table, in text order of roll. */
  function PrintDiaries(t: seq<Diary>): (r: seq<Diary>)
    ensures forall x :: multiset(r)[x] == if x.roll in PrintableRolls() then multiset(t)[x] else 0
    ensures forall i, j :: 0 <= i < j < |r| ==> Le(r[i].roll, r[j].roll)
  {
    var kept := KeepIf(t, PrintableDiary);
    SortBySorted(kept, DiaryRoll, Ascending);
    SortBy(kept, DiaryRoll, Ascending)
  }

  /** The query of print_certificates, the same as PrintDiaries on the
      certificates table. */
  function PrintCertificates(t: seq<Certificate>): (r: seq<Certificate>)
    ensures forall x :: multiset(r)[x] == if x.roll in PrintableRolls() then multiset(t)[x] else 0
    ensures forall i, j :: 0 <= i < j < |r| ==> Le(r[i].roll, r[j].roll)
  {
    var kept := KeepIf(t, PrintableCertificate);
    SortBySorted(kept, CertificateRoll, Ascending);
    SortBy(kept, CertificateRoll, Ascending)
  }

  /** With no diary for a printable roll the print view is empty, which is
      not an error. */
  lemma PrintDiariesEmpty(t: seq<Diary>)
    requires forall k :: 0 <= k < |t| ==> t[k].roll !in PrintableRolls()
    ensures PrintDiaries(t) == []
  {
    var r := PrintDiaries(t);
    forall x ensures multiset(r)[x] == 0 {
      if x in multiset(t) {
        var k :| 0 <= k < |t| && t[k] == x;
      }
    }
    assert multiset(r) == multiset{};
  }

  /** Because every printable roll is a two-digit numeral, the print view's
      text order is also numeric order. */
  lemma PrintDiariesInNumericOrder(t: seq<Diary>)
    ensures forall i, j :: 0 <= i < j < |PrintDiaries(t)| ==>
              && IsDigits(PrintDiaries(t)[i].roll) && IsDigits(PrintDiaries(t)[j].roll)
              && ParseDecimal(PrintDiaries(t)[i].roll) <= ParseDecimal(PrintDiaries(t)[j].roll)
  {
    var r := PrintDiaries(t);
    forall i, j | 0 <= i < j < |r|
      ensures && IsDigits(r[i].roll) && IsDigits(r[j].roll)
              && ParseDecimal(r[i].roll) <= ParseDecimal(r[j].roll)
    {
      assert r[i] in multiset(r) && r[j] in multiset(r);
      PrintableRollOrderIsNumeric(r[i].roll, r[j].roll);
    }
  }

  /** Some certificate row has the given roll. */
  predicate HasCertificate(t: seq<Certificate>, roll: string) {
    exists c :: c in t && c.roll == roll
  }

  /** The checklist print_certificates renders, stated declaratively: one
      entry per printable roll, true exactly when the table holds a
      certificate for that roll. */
  function Presence(t: seq<Certificate>): (present: map<string, bool>)
  {
    map r | r in PrintableRolls() :: HasCertificate(t, r)
  }

  /** print_certificates: run the print query, start from every printable
      roll mapped to false, then mark the roll of each returned row. */
  method PresenceChecklist(t: seq<Certificate>) returns (present: map<string, bool>)
    ensures present == Presence(t)
  {
    var certs := PrintCertificates(t);
    PrintCertificatesRolls(t);
    present := map r | r in PrintableRolls() :: false;
    present := MarkRolls(present, certs);
    ChecklistIsPresence(t, present);
  }

  /** The loop "for c in certs: present[c["roll"]] = True": an entry ends up
      true when it was true before or some row has its roll. Because every
      row's roll is already a key, no key is added. */
  method MarkRolls(start: map<string, bool>, certs: seq<Certificate>) returns (present: map<string, bool>)
    requires forall k :: 0 <= k < |certs| ==> certs[k].roll in start
    ensures present.Keys == start.Keys
    ensures forall r :: r in present ==> present[r] == (start[r] || HasCertificate(certs, r))
  {
    present := start;
    for i := 0 to |certs|
      invariant present.Keys == start.Keys
      invariant forall r :: r in present ==> present[r] == (start[r] || HasCertificate(certs[..i], r))
    {
      assert certs[..i + 1] == certs[..i] + [certs[i]];
      present := present[certs[i].roll := true];
    }
    assert certs[..|certs|] == certs;
  }

  /** A map over the printable rolls that marks exactly the rolls found
      among the rows of the print query is the declarative checklist. */
  lemma ChecklistIsPresence(t: seq<Certificate>, present: map<string, bool>)
    requires present.Keys == PrintableRollSet()
    requires forall r :: r in present ==> present[r] == HasCertificate(PrintCertificates(t), r)
    ensures present == Presence(t)
  {
    assert present.Keys == Presence(t).Keys;
    forall r | r in present ensures present[r] == Presence(t)[r] {
      PrintCertificatesHasRoll(t, r);
    }
  }

  /** Every row the print query returns has a printable roll. */
  lemma PrintCertificatesRolls(t: seq<Certificate>)
    ensures forall k :: 0 <= k < |PrintCertificates(t)| ==> PrintCertificates(t)[k].roll in PrintableRollSet()
  {
    var certs := PrintCertificates(t);
    forall k | 0 <= k < |certs| ensures certs[k].roll in PrintableRollSet() {
      assert certs[k] in multiset(certs);
    }
  }

  /** The print query returns a row with a given printable roll exactly when
      the table holds one. */
  lemma PrintCertificatesHasRoll(t: seq<Certificate>, r: string)
    requires r in PrintableRolls()
    ensures HasCertificate(PrintCertificates(t), r) <==> HasCertificate(t, r)
  {
    var certs := PrintCertificates(t);
    if HasCertificate(t, r) {
      var c :| c in t && c.roll == r;
      assert c in multiset(t);
      assert c in multiset(certs);
    }
    if HasCertificate(certs, r) {
      var c :| c in certs && c.roll == r;
      assert c in multiset(certs);
      assert c in multiset(t);
    }
  }

  /** The checklist has exactly the 18 printable rolls as keys: the roll
      filter of the query means marking a row never adds a key. */
  lemma PresenceKeys(t: seq<Certificate>)
    ensures Presence(t).Keys == PrintableRollSet()
    ensures |Presence(t)| == 18
  {
    PrintableRollCount();
    assert Presence(t).Keys == PrintableRollSet();
  }

  /** A roll is checked exactly when some certificate has it; with no
      certificate it is unchecked. */
  lemma PresenceMeaning(t: seq<Certificate>, roll: string)
    requires roll in PrintableRolls()
    ensures roll in Presence(t)
    ensures Presence(t)[roll] <==> exists i :: 0 <= i < |t| && t[i].roll == roll
  {
    if HasCertificate(t, roll) {
      var c :| c in t && c.roll == roll;
      var i :| 0 <= i < |t| && t[i] == c;
    }
  }

  /** A second certificate for a roll that is already checked, or one for a
      roll outside the printable range, leaves the checklist as it was. */
  lemma PresenceIgnoresRepeats(t: seq<Certificate>, c: Certificate)
    requires HasCertificate(t, c.roll) || c.roll !in PrintableRolls()
    ensures Presence(t + [c]) == Presence(t)
  {
    forall r | r in PrintableRolls() ensures HasCertificate(t + [c], r) == HasCertificate(t, r) {
      if HasCertificate(t + [c], r) {
        var d :| d in t + [c] && d.roll == r;
        if d !in t {
          assert d == c;
        }
      }
      if HasCertificate(t, r) {
        var d :| d in t && d.roll == r;
        assert d in t + [c];
      }
    }
  }

  /** A certificate for a printable roll checks that roll and changes no
      other entry. */
  lemma PresenceMarksRoll(t: seq<Certificate>, c: Certificate)
    requires c.roll in PrintableRolls()
    ensures Presence(t + [c]) == Presence(t)[c.roll := true]
  {
    assert c in t + [c];
    forall r | r in PrintableRolls() && r != c.roll
      ensures HasCertificate(t + [c], r) == HasCertificate(t, r)
    {
      if HasCertificate(t + [c], r) {
        var d :| d in t + [c] && d.roll == r;
        assert d in t;
      }
      if HasCertificate(t, r) {
        var d :| d in t && d.roll == r;
        assert d in t + [c];
      }
    }
  }
}
