// controllers/qualityController.js: a farmer asks for an inspection of a
// field's harvest, an officer takes it on and grades it. A passing grade
// earns a certificate number from the model's pre-save hook.
module Quality {
  import opened Common
  import opened QualityModel
  import FarmModel
  import Sorting
  import Store

  datatype QualityReply =
    | RequestCreated(id: nat)
    | FieldNotFound
    | AlreadyRequested
    | RequestNotFound
    | NotPending
    | NotAssigned
    | GradingSaved
    | Assigned
    | ServerError

  /** The grade in a grading body: absent, one of the schema's grades, or
      a string outside the enum. */
  datatype GradeField = Absent | Named(grade: Grade) | Unlisted

  /** `Field.findOne({ _id: fieldId, farmerId })` */
  predicate OwnsField(fields: seq<FarmModel.Field>, id: nat, farmer: nat)
  {
    id < |fields| && fields[id].farmerId == farmer
  }

  /** `findOne({ fieldId, status: { $in: ["pending", "in-progress"] } })` */
  predicate HasOpen(reqs: seq<QualityRequest>, fieldId: nat)
  {
    exists i :: 0 <= i < |reqs| && reqs[i].fieldId == fieldId && IsOpen(reqs[i])
  }

  /** At most one open request per field. */
  ghost predicate OneOpenPerField(reqs: seq<QualityRequest>)
  {
    forall i, j :: 0 <= i < j < |reqs| && IsOpen(reqs[i]) && IsOpen(reqs[j]) ==>
      reqs[i].fieldId != reqs[j].fieldId
  }

  /** A request has an officer exactly when it has left pending. */
  ghost predicate OfficerOnceStarted(reqs: seq<QualityRequest>)
  {
    forall i :: 0 <= i < |reqs| ==> (reqs[i].status == Pending <==> reqs[i].assignedOfficer.None?)
  }

  /** The schema's required fields for a new request: a non-empty crop
      name, a quantity of at least 0 and a harvest date. */
  predicate NewRequestValid(cropName: Option<string>, quantity: Option<int>, harvestDate: Option<int>)
  {
    Given(cropName) && quantity.Some? && quantity.value >= 0 && harvestDate.Some?
  }

  function NewRequest(farmer: nat, fieldId: nat, cropName: Option<string>, quantity: Option<int>,
                      unit: Option<Unit>, harvestDate: Option<int>, now: int): QualityRequest
    requires NewRequestValid(cropName, quantity, harvestDate)
  {
    QualityRequest(farmer, fieldId, cropName.value, quantity.value,
                   if unit.Some? then unit.value else Quintal,
                   harvestDate.value, Pending, None, None, None, None, None, None, None, now)
  }

  /** createQualityRequest: the field must be the caller's, and it must
      have no open request; the new request is pending, unassigned and
      ungraded. The pre-save hook leaves it alone, as it has no grade. */
  method CreateQualityRequest(db: Store.Db, farmer: nat, fieldId: nat, cropName: Option<string>,
                              quantity: Option<int>, unit: Option<Unit>, harvestDate: Option<int>, now: int)
    returns (reply: QualityReply)
    modifies db`qualityRequests
    ensures !OwnsField(db.fields, fieldId, farmer) ==>
              reply == FieldNotFound && db.qualityRequests == old(db.qualityRequests)
    ensures OwnsField(db.fields, fieldId, farmer) && HasOpen(old(db.qualityRequests), fieldId) ==>
              reply == AlreadyRequested && db.qualityRequests == old(db.qualityRequests)
    ensures OwnsField(db.fields, fieldId, farmer) && !HasOpen(old(db.qualityRequests), fieldId) &&
            !NewRequestValid(cropName, quantity, harvestDate) ==>
              reply == ServerError && db.qualityRequests == old(db.qualityRequests)
    ensures OwnsField(db.fields, fieldId, farmer) && !HasOpen(old(db.qualityRequests), fieldId) &&
            NewRequestValid(cropName, quantity, harvestDate) ==>
              reply == RequestCreated(|old(db.qualityRequests)|) &&
              db.qualityRequests == old(db.qualityRequests) +
                                    [NewRequest(farmer, fieldId, cropName, quantity, unit, harvestDate, now)]
  {
    if !OwnsField(db.fields, fieldId, farmer) {
      return FieldNotFound;
    }
    if HasOpen(db.qualityRequests, fieldId) {
      return AlreadyRequested;
    }
    if !NewRequestValid(cropName, quantity, harvestDate) {
      return ServerError;
    }
    db.qualityRequests := db.qualityRequests + [NewRequest(farmer, fieldId, cropName, quantity, unit, harvestDate, now)];
    reply := RequestCreated(|db.qualityRequests| - 1);
  }

  /** A request is only added for a field without an open one, so each
      field keeps at most one open request; the new one is unassigned. */
  lemma CreateKeepsInvariants(reqs: seq<QualityRequest>, farmer: nat, fieldId: nat, cropName: Option<string>,
                              quantity: Option<int>, unit: Option<Unit>, harvestDate: Option<int>, now: int)
    requires OneOpenPerField(reqs) && OfficerOnceStarted(reqs)
    requires !HasOpen(reqs, fieldId) && NewRequestValid(cropName, quantity, harvestDate)
    ensures var q := NewRequest(farmer, fieldId, cropName, quantity, unit, harvestDate, now);
            q.status == Pending && IsOpen(q) &&
            OneOpenPerField(reqs + [q]) && OfficerOnceStarted(reqs + [q]) && HasOpen(reqs + [q], fieldId)
  {
    var q := NewRequest(farmer, fieldId, cropName, quantity, unit, harvestDate, now);
    var r := reqs + [q];
    forall i, j | 0 <= i < j < |r| && IsOpen(r[i]) && IsOpen(r[j])
      ensures r[i].fieldId != r[j].fieldId
    {
      if j == |reqs| {
        assert r[i] == reqs[i];
      }
    }
    assert r[|reqs|] == q;
  }

  /** assignInspection: only a pending request can be taken on; it moves
      to in-progress with the caller as its officer. */
  method AssignInspection(db: Store.Db, officer: nat, id: nat) returns (reply: QualityReply)
    modifies db`qualityRequests
    ensures id >= |old(db.qualityRequests)| ==>
              reply == RequestNotFound && db.qualityRequests == old(db.qualityRequests)
    ensures id < |old(db.qualityRequests)| && old(db.qualityRequests)[id].status != Pending ==>
              reply == NotPending && db.qualityRequests == old(db.qualityRequests)
    ensures id < |old(db.qualityRequests)| && old(db.qualityRequests)[id].status == Pending ==>
              (var q := old(db.qualityRequests)[id];
               if SchemaValid(q) then
                 reply == Assigned &&
                 db.qualityRequests == old(db.qualityRequests)[id := q.(assignedOfficer := Some(officer), status := InProgress)]
               else
                 reply == ServerError && db.qualityRequests == old(db.qualityRequests))
  {
    if id >= |db.qualityRequests| {
      return RequestNotFound;
    }
    var q := db.qualityRequests[id];
    if q.status != Pending {
      return NotPending;
    }
    if !SchemaValid(q) {
      return ServerError;
    }
    db.qualityRequests := db.qualityRequests[id := q.(assignedOfficer := Some(officer), status := InProgress)];
    reply := Assigned;
  }

  /** Replacing a request by one for the same field that is open only if
      the old one was keeps each field to one open request. */
  lemma {:induction false} ReplaceKeepsOneOpen(reqs: seq<QualityRequest>, id: nat, q: QualityRequest)
    requires OneOpenPerField(reqs) && id < |reqs|
    requires q.fieldId == reqs[id].fieldId && (IsOpen(q) ==> IsOpen(reqs[id]))
    ensures OneOpenPerField(reqs[id := q])
  {
    var r := reqs[id := q];
    forall i, j | 0 <= i < j < |r| && IsOpen(r[i]) && IsOpen(r[j])
      ensures r[i].fieldId != r[j].fieldId
    {
      assert IsOpen(reqs[i]) && IsOpen(reqs[j]);
    }
  }

  lemma AssignKeepsInvariants(reqs: seq<QualityRequest>, id: nat, officer: nat)
    requires OneOpenPerField(reqs) && OfficerOnceStarted(reqs)
    requires id < |reqs| && reqs[id].status == Pending
    ensures var r := reqs[id := reqs[id].(assignedOfficer := Some(officer), status := InProgress)];
            OneOpenPerField(r) && OfficerOnceStarted(r)
  {
    ReplaceKeepsOneOpen(reqs, id, reqs[id].(assignedOfficer := Some(officer), status := InProgress));
  }

  /** The grading fields written onto a request before it is saved: the
      grade and notes as given, the inspection date (today when none is
      given), and the outcome, rejected with the reason for a "Rejected"
      grade and approved for anything else. */
  function Grade(q: QualityRequest, grade: GradeField, notes: Option<string>, reason: Option<string>,
                 inspectionDate: Option<int>, now: int): (r: QualityRequest)
    requires !grade.Unlisted?
    ensures r.status == Rejected <==> grade == Named(RejectedGrade)
    ensures r.status == Approved <==> grade != Named(RejectedGrade)
    ensures r.grade == (if grade.Named? then Some(grade.grade) else None)
    ensures r.rejectionReason == (if grade == Named(RejectedGrade) then reason else q.rejectionReason)
    ensures r.inspectionDate.Some? && (inspectionDate.Some? ==> r.inspectionDate == inspectionDate)
    ensures r.assignedOfficer == q.assignedOfficer && r.fieldId == q.fieldId
    ensures r.certificateNumber == q.certificateNumber
  {
    var g := q.(grade := if grade.Named? then Some(grade.grade) else None,
                gradingNotes := notes,
                inspectionDate := Some(if inspectionDate.Some? then inspectionDate.value else now));
    if grade == Named(RejectedGrade) then g.(rejectionReason := reason, status := Rejected)
    else g.(status := Approved)
  }

  /** The request as saved after grading: the pre-save hook sees the grade
      as modified when it differs from the stored one. */
  function Graded(q: QualityRequest, grade: GradeField, notes: Option<string>, reason: Option<string>,
                  inspectionDate: Option<int>, now: int, year: nat, month: nat, random: nat): QualityRequest
    requires !grade.Unlisted?
    requires 1 <= month <= 12 && 1000 <= random <= 9999
  {
    var g := Grade(q, grade, notes, reason, inspectionDate, now);
    PreSave(g, g.grade != q.grade, now, year, month, random)
  }

  /** submitGrading. Only the request's assigned officer may grade it; a
      request with no officer yet makes the ownership check throw. The
      status is not checked, so an officer may grade a request again. */
  method SubmitGrading(db: Store.Db, officer: nat, id: nat, grade: GradeField, notes: Option<string>,
                       reason: Option<string>, inspectionDate: Option<int>,
                       now: int, year: nat, month: nat, random: nat)
    returns (reply: QualityReply)
    requires 1 <= month <= 12 && 1000 <= random <= 9999
    modifies db`qualityRequests
    ensures id >= |old(db.qualityRequests)| ==>
              reply == RequestNotFound && db.qualityRequests == old(db.qualityRequests)
    ensures id < |old(db.qualityRequests)| && old(db.qualityRequests)[id].assignedOfficer.None? ==>
              reply == ServerError && db.qualityRequests == old(db.qualityRequests)
    ensures id < |old(db.qualityRequests)| && old(db.qualityRequests)[id].assignedOfficer.Some? &&
            old(db.qualityRequests)[id].assignedOfficer.value != officer ==>
              reply == NotAssigned && db.qualityRequests == old(db.qualityRequests)
    ensures id < |old(db.qualityRequests)| && old(db.qualityRequests)[id].assignedOfficer == Some(officer) ==>
              if grade.Unlisted? || !SchemaValid(old(db.qualityRequests)[id]) then
                reply == ServerError && db.qualityRequests == old(db.qualityRequests)
              else
                reply == GradingSaved &&
                db.qualityRequests == old(db.qualityRequests)[id := Graded(old(db.qualityRequests)[id], grade, notes,
                                                                           reason, inspectionDate, now, year, month, random)]
  {
    if id >= |db.qualityRequests| {
      return RequestNotFound;
    }
    var q := db.qualityRequests[id];
    if q.assignedOfficer.None? {
      return ServerError;
    }
    if q.assignedOfficer.value != officer {
      return NotAssigned;
    }
    if grade.Unlisted? || !SchemaValid(q) {
      return ServerError;
    }
    db.qualityRequests := db.qualityRequests[id := Graded(q, grade, notes, reason, inspectionDate, now, year, month, random)];
    reply := GradingSaved;
  }

  /** Grading closes the request, approved or rejected, and keeps its
      officer, so the invariants hold; under them a pending request can
      never be graded, as it has no officer. */
  lemma GradeKeepsInvariants(reqs: seq<QualityRequest>, id: nat, grade: GradeField, notes: Option<string>,
                             reason: Option<string>, inspectionDate: Option<int>,
                             now: int, year: nat, month: nat, random: nat)
    requires OneOpenPerField(reqs) && OfficerOnceStarted(reqs)
    requires id < |reqs| && reqs[id].assignedOfficer.Some? && !grade.Unlisted?
    requires 1 <= month <= 12 && 1000 <= random <= 9999
    ensures reqs[id].status != Pending
    ensures var q := Graded(reqs[id], grade, notes, reason, inspectionDate, now, year, month, random);
            (q.status == Approved || q.status == Rejected) &&
            OneOpenPerField(reqs[id := q]) && OfficerOnceStarted(reqs[id := q])
  {
    var q := Graded(reqs[id], grade, notes, reason, inspectionDate, now, year, month, random);
    ReplaceKeepsOneOpen(reqs, id, q);
  }

  /** The certificate rules of a grading: a passing grade that changes the
      stored grade earns a "QC" number and an issue date when the request
      has none; a "Rejected" grade earns none; an existing number is never
      replaced. */
  lemma GradingCertificate(q: QualityRequest, grade: GradeField, notes: Option<string>, reason: Option<string>,
                           inspectionDate: Option<int>, now: int, year: nat, month: nat, random: nat)
    requires !grade.Unlisted?
    requires 1 <= month <= 12 && 1000 <= random <= 9999
    ensures var r := Graded(q, grade, notes, reason, inspectionDate, now, year, month, random);
            (q.certificateNumber.Some? ==> r.certificateNumber == q.certificateNumber) &&
            (q.certificateNumber.None? && (grade.Absent? || grade == Named(RejectedGrade)) ==>
               r.certificateNumber.None?) &&
            (q.certificateNumber.None? && grade.Named? && grade.grade != RejectedGrade && q.grade != Some(grade.grade) ==>
               r.status == Approved &&
               r.certificateNumber == Some(CertificateNumber(year, month, random)) &&
               r.certificateIssueDate == Some(now) &&
               r.certificateNumber.value[..2] == "QC")
  {
    CertificateNumberParts(year, month, random);
  }

  // ---------------------------------------------------------------
  // getPendingRequests

  /** `.sort({ createdAt: 1 })` */
  function OlderFirst(): (QualityRequest, QualityRequest) -> bool
  {
    (a: QualityRequest, b: QualityRequest) => a.createdAt <= b.createdAt
  }

  function OpenRequest(): QualityRequest -> bool
  {
    (q: QualityRequest) => IsOpen(q)
  }

  /** getPendingRequests: exactly the pending and in-progress requests,
      oldest first. */
  function PendingRequests(reqs: seq<QualityRequest>): (r: seq<QualityRequest>)
    ensures forall q :: q in r <==> q in reqs && (q.status == Pending || q.status == InProgress)
    ensures multiset(r) == multiset(Sorting.Filter(reqs, OpenRequest()))
    ensures forall j, k :: 0 <= j < k < |r| ==> r[j].createdAt <= r[k].createdAt
  {
    assert Sorting.Total(OlderFirst()) && Sorting.Transitive(OlderFirst());
    Sorting.Sort(Sorting.Filter(reqs, OpenRequest()), OlderFirst())
  }
}
