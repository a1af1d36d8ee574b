// models/QualityRequest.js: an inspection request and the pre-save hook
// that stamps a certificate number on a passing grade.
module QualityModel {
  import opened Common

  datatype QualityStatus = Pending | InProgress | Approved | Rejected

  /** The grade enum; `RejectedGrade` is the schema's "Rejected" grade. */
  datatype Grade = FAQ | A | B | C | RejectedGrade

  datatype QualityRequest = QualityRequest(
    farmerId: nat,
    fieldId: nat,
    cropName: string,
    quantity: int,
    unit: Unit,
    harvestDate: int,
    status: QualityStatus,
    assignedOfficer: Option<nat>,
    inspectionDate: Option<int>,
    grade: Option<Grade>,
    gradingNotes: Option<string>,
    rejectionReason: Option<string>,
    certificateNumber: Option<string>,
    certificateIssueDate: Option<int>,
    createdAt: int)

  /** Pending and in-progress requests are still open. */
  predicate IsOpen(q: QualityRequest)
  {
    q.status == Pending || q.status == InProgress
  }

  /** Schema bounds: quantity is at least 0. */
  predicate SchemaValid(q: QualityRequest)
  {
    q.quantity >= 0
  }

  /** "QC" + year + two-digit month + a four-digit random value. */
  function CertificateNumber(year: nat, month: nat, random: nat): string
    requires 1 <= month <= 12 && 1000 <= random <= 9999
  {
    "QC" + Decimal(year) + PadStart(Decimal(month), 2) + Decimal(random)
  }

  /** The certificate number splits back into its parts: the prefix, the
      year, the zero-padded month and the four random digits. */
  lemma CertificateNumberParts(year: nat, month: nat, random: nat)
    requires 1 <= month <= 12 && 1000 <= random <= 9999
    ensures var c := CertificateNumber(year, month, random);
            var y := |Decimal(year)|;
            |c| == 2 + y + 6 &&
            c[..2] == "QC" &&
            DigitsValue(c[2..2 + y]) == year &&
            DigitsValue(c[2 + y..4 + y]) == month &&
            DigitsValue(c[4 + y..]) == random
  {
    var ys, ms, rs := Decimal(year), PadStart(Decimal(month), 2), Decimal(random);
    assert |ms| == 2 by { AtMostTwoDigits(month); }
    assert |rs| == 4 by { FourDigits(random); }
    assert DigitsValue(ys) == year by { DecimalRoundTrip(year); }
    assert DigitsValue(ms) == month by { PaddedRoundTrip(month, 2); }
    assert DigitsValue(rs) == random by { DecimalRoundTrip(random); }
    ConcatParts("QC", ys, ms, rs);
  }

  /** The pre-save hook. `gradeModified` is Mongoose's isModified("grade");
      the clock fields and the random draw are inputs. */
  function PreSave(q: QualityRequest, gradeModified: bool, now: int,
                   year: nat, month: nat, random: nat): (r: QualityRequest)
    requires 1 <= month <= 12 && 1000 <= random <= 9999
    ensures q.certificateNumber.Some? ==> r == q
    ensures r.certificateNumber != q.certificateNumber <==>
              gradeModified && q.grade.Some? && q.grade.value != RejectedGrade &&
              q.certificateNumber.None?
    ensures r.certificateNumber != q.certificateNumber ==>
              r == q.(certificateNumber := Some(CertificateNumber(year, month, random)),
                      certificateIssueDate := Some(now))
    ensures r.certificateNumber == q.certificateNumber ==> r == q
  {
    if gradeModified && q.grade.Some? && q.grade.value != RejectedGrade && q.certificateNumber.None? then
      q.(certificateNumber := Some(CertificateNumber(year, month, random)),
         certificateIssueDate := Some(now))
    else
      q
  }
}
