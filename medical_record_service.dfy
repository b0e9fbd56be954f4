/** Medical records: creation from an appointment that belongs to the given
    patient and doctor, the two newest-first reads, and the response view. */
module MedicalRecordService {
  import opened Tables
  import opened Entities
  import opened Store
  import AppointmentRepository

  /** The creation request (MedicalRecordDTO); `prescriptions` is None when null. */
  datatype MedicalRecordRequest = MedicalRecordRequest(
    appointmentId: Id,
    patientId: Id,
    doctorId: Id,
    reason: string,
    diagnosis: string,
    notes: string,
    prescriptions: Option<seq<Payload>>)

  datatype PrescriptionView = PrescriptionView(payload: Payload)

  /** The response view (MedicalRecordResponseDTO). */
  datatype RecordView = RecordView(
    recordId: Id,
    patientId: Id,
    doctorId: Id,
    patientName: string,
    doctorName: string,
    reason: string,
    diagnosis: string,
    notes: string,
    createdAt: Timestamp,
    prescriptions: Option<seq<PrescriptionView>>)

  const MismatchMessage := "Appointment does not belong to provided patient/doctor"

  // ---------------------------------------------------------------------------
  // The response view

  function PrescriptionViews(ps: seq<Prescription>): (vs: seq<PrescriptionView>)
    ensures |vs| == |ps|
    ensures forall i :: 0 <= i < |ps| ==> vs[i].payload == ps[i].payload
  {
    if ps == [] then []
    else [PrescriptionView(ps[0].payload)] + PrescriptionViews(ps[1..])
  }

  /** toDto: the view shows the record's own fields and the linked patient's and doctor's ids and names. */
  function ToDto(record: MedicalRecord): (v: RecordView)
    ensures v.recordId == record.recordId && v.createdAt == record.createdAt
    ensures v.reason == record.reason && v.diagnosis == record.diagnosis && v.notes == record.notes
    ensures v.patientId == record.patient.patientId && v.patientName == record.patient.name
    ensures v.doctorId == record.doctor.doctorId && v.doctorName == record.doctor.doctorName
    ensures v.prescriptions.Some? <==> record.prescriptions.Some?
    ensures record.prescriptions.Some? ==>
              && |v.prescriptions.value| == |record.prescriptions.value|
              && forall i :: 0 <= i < |record.prescriptions.value| ==>
                   v.prescriptions.value[i].payload == record.prescriptions.value[i].payload
  {
    RecordView(
      record.recordId,
      record.patient.patientId,
      record.doctor.doctorId,
      record.patient.name,
      record.doctor.doctorName,
      record.reason,
      record.diagnosis,
      record.notes,
      record.createdAt,
      match record.prescriptions
      case None => None
      case Some(ps) => Some(PrescriptionViews(ps)))
  }

  function MapToDto(rs: seq<MedicalRecord>): (vs: seq<RecordView>)
    ensures |vs| == |rs|
    ensures forall i :: 0 <= i < |rs| ==> vs[i] == ToDto(rs[i])
  {
    if rs == [] then [] else [ToDto(rs[0])] + MapToDto(rs[1..])
  }

  // ---------------------------------------------------------------------------
  // The record table's queries: a filter, then ORDER BY createdAt DESC

  predicate NewestFirst(rs: seq<MedicalRecord>) {
    forall i, j :: 0 <= i < j < |rs| ==> rs[i].createdAt >= rs[j].createdAt
  }

  predicate ViewsNewestFirst(vs: seq<RecordView>) {
    forall i, j :: 0 <= i < j < |vs| ==> vs[i].createdAt >= vs[j].createdAt
  }

  /** A row at least as new as every row of a newest-first table may lead it. */
  lemma ConsNewestFirst(x: MedicalRecord, rs: seq<MedicalRecord>)
    requires NewestFirst(rs)
    requires forall y :: y in rs ==> y.createdAt <= x.createdAt
    ensures NewestFirst([x] + rs)
  {
    forall i, j | 0 <= i < j < |[x] + rs| ensures ([x] + rs)[i].createdAt >= ([x] + rs)[j].createdAt {
      if i == 0 { assert ([x] + rs)[j] == rs[j - 1]; }
    }
  }

  /** Places `x` before the first row that is not newer than it. */
  function InsertNewestFirst(x: MedicalRecord, rs: seq<MedicalRecord>): (r: seq<MedicalRecord>)
    requires NewestFirst(rs)
    ensures NewestFirst(r)
    ensures multiset(r) == multiset(rs) + multiset{x}
  {
    if rs == [] || rs[0].createdAt <= x.createdAt then
      ConsNewestFirst(x, rs);
      [x] + rs
    else
      var tail := InsertNewestFirst(x, rs[1..]);
      assert rs == [rs[0]] + rs[1..];
      assert forall y :: y in tail ==> y.createdAt <= rs[0].createdAt by {
        forall y | y in tail ensures y.createdAt <= rs[0].createdAt {
          assert y in multiset(tail);
          assert y in rs[1..] || y == x;
        }
      }
      ConsNewestFirst(rs[0], tail);
      [rs[0]] + tail
  }

  /** The rows of `rs`, newest first. */
  function SortNewestFirst(rs: seq<MedicalRecord>): (r: seq<MedicalRecord>)
    ensures NewestFirst(r)
    ensures multiset(r) == multiset(rs)
  {
    if rs == [] then []
    else
      assert rs == [rs[0]] + rs[1..];
      InsertNewestFirst(rs[0], SortNewestFirst(rs[1..]))
  }

  lemma {:induction false} MapToDtoInsert(x: MedicalRecord, rs: seq<MedicalRecord>)
    requires NewestFirst(rs)
    ensures multiset(MapToDto(InsertNewestFirst(x, rs))) == multiset(MapToDto(rs)) + multiset{ToDto(x)}
  {
    if rs == [] || rs[0].createdAt <= x.createdAt {
      assert MapToDto([x] + rs) == [ToDto(x)] + MapToDto(rs);
    } else {
      MapToDtoInsert(x, rs[1..]);
      var tail := InsertNewestFirst(x, rs[1..]);
      assert MapToDto([rs[0]] + tail) == [ToDto(rs[0])] + MapToDto(tail);
      assert MapToDto(rs) == [ToDto(rs[0])] + MapToDto(rs[1..]);
    }
  }

  /** Sorting rows and then viewing them yields the views of the rows, reordered. */
  lemma {:induction false} MapToDtoSort(rs: seq<MedicalRecord>)
    ensures multiset(MapToDto(SortNewestFirst(rs))) == multiset(MapToDto(rs))
  {
    if rs != [] {
      MapToDtoSort(rs[1..]);
      MapToDtoInsert(rs[0], SortNewestFirst(rs[1..]));
      assert MapToDto(rs) == [ToDto(rs[0])] + MapToDto(rs[1..]);
    }
  }

  /** findByPatient_PatientIdOrderByCreatedAtDesc, before ordering */
  function RecordsOfPatient(records: seq<MedicalRecord>, patientId: Id): (r: seq<MedicalRecord>)
    ensures forall rec :: multiset(r)[rec] == if rec.patient.patientId == patientId then multiset(records)[rec] else 0
  {
    Where(records, (rec: MedicalRecord) => rec.patient.patientId == patientId)
  }

  /** findByDoctor_DoctorIdOrderByCreatedAtDesc, before ordering */
  function RecordsOfDoctor(records: seq<MedicalRecord>, doctorId: Id): (r: seq<MedicalRecord>)
    ensures forall rec :: multiset(r)[rec] == if rec.doctor.doctorId == doctorId then multiset(records)[rec] else 0
  {
    Where(records, (rec: MedicalRecord) => rec.doctor.doctorId == doctorId)
  }

  /** The views of some rows, newest first, with nothing added or lost. */
  function NewestFirstViews(rs: seq<MedicalRecord>): (vs: seq<RecordView>)
    ensures ViewsNewestFirst(vs)
    ensures multiset(vs) == multiset(MapToDto(rs))
    ensures forall v :: v in vs ==> exists rec :: rec in rs && v == ToDto(rec)
  {
    var sorted := SortNewestFirst(rs);
    MapToDtoSort(rs);
    var vs := MapToDto(sorted);
    assert forall v :: v in vs ==> exists rec :: rec in rs && v == ToDto(rec) by {
      forall v | v in vs ensures exists rec :: rec in rs && v == ToDto(rec) {
        var i :| 0 <= i < |vs| && vs[i] == v;
        assert sorted[i] in multiset(rs);
      }
    }
    vs
  }

  // ---------------------------------------------------------------------------
  // The reads

  /** getRecordsForPatient, for the patient linked to the signed-in username. */
  function RecordsForPatient(patients: seq<Patient>, records: seq<MedicalRecord>, currentUsername: string): (r: Result<seq<RecordView>, Error>)
    ensures r.Failure? <==> forall p :: p in patients ==> p.user.username != currentUsername
    ensures r.Failure? ==> r.error == ResourceNotFound("Patient", "username", ByName(currentUsername))
    ensures r.Success? ==>
              var patient := FindPatientByUsername(patients, currentUsername).value;
              && patient in patients && patient.user.username == currentUsername
              && (OnePatientPerAccount(patients) ==>
                    forall p :: p in patients && p.user.username == currentUsername ==> p == patient)
              && ViewsNewestFirst(r.value)
              && multiset(r.value) == multiset(MapToDto(RecordsOfPatient(records, patient.patientId)))
              && forall v :: v in r.value ==> v.patientId == patient.patientId
  {
    match FindPatientByUsername(patients, currentUsername)
    case None => Failure(ResourceNotFound("Patient", "username", ByName(currentUsername)))
    case Some(patient) => Success(NewestFirstViews(RecordsOfPatient(records, patient.patientId)))
  }

  /** getRecordsForDoctor: an unknown doctor id fails before the records are read. */
  function RecordsForDoctor(doctors: seq<Doctor>, records: seq<MedicalRecord>, doctorId: Id): (r: Result<seq<RecordView>, Error>)
    ensures r.Failure? <==> forall d :: d in doctors ==> d.doctorId != doctorId
    ensures r.Failure? ==> r.error == ResourceNotFound("Doctor", "Id", ById(doctorId))
    ensures r.Success? ==>
              && ViewsNewestFirst(r.value)
              && multiset(r.value) == multiset(MapToDto(RecordsOfDoctor(records, doctorId)))
              && forall v :: v in r.value ==> v.doctorId == doctorId
  {
    if !Any(doctors, (d: Doctor) => d.doctorId == doctorId) then
      Failure(ResourceNotFound("Doctor", "Id", ById(doctorId)))
    else
      Success(NewestFirstViews(RecordsOfDoctor(records, doctorId)))
  }

  // ---------------------------------------------------------------------------
  // Creation

  /** The prescriptions of a new record, each pointing back at it, in request order. */
  method AttachPrescriptions(payloads: seq<Payload>, recordId: Id) returns (ps: seq<Prescription>)
    ensures |ps| == |payloads|
    ensures forall i :: 0 <= i < |ps| ==> ps[i].payload == payloads[i] && ps[i].medicalRecordId == recordId
  {
    ps := [];
    var i := 0;
    while i < |payloads|
      invariant 0 <= i <= |payloads|
      invariant |ps| == i
      invariant forall k :: 0 <= k < i ==> ps[k] == Prescription(payloads[k], recordId)
    {
      ps := ps + [Prescription(payloads[i], recordId)];
      i := i + 1;
    }
  }

  class MedicalRecordServiceImpl {
    const db: Database

    constructor (db: Database)
      ensures this.db == db
    {
      this.db := db;
    }

    /** createRecord. The appointment, patient and doctor are looked up in that
        order and the first missing one is reported; the appointment must
        belong to both; only then is exactly one record appended. The new
        record's id and creation time are supplied by the caller. */
    method CreateRecord(dto: MedicalRecordRequest, recordId: Id, createdAt: Timestamp) returns (r: Result<RecordView, Error>)
      modifies db`records
      ensures var appointment := AppointmentRepository.FindById(db.appointments, dto.appointmentId);
              var patient := FindPatientById(db.patients, dto.patientId);
              var doctor := FindDoctorById(db.doctors, dto.doctorId);
              && (appointment.None? ==>
                    r == Failure(ResourceNotFound("Appointment", "Id", ById(dto.appointmentId))))
              && (appointment.Some? && patient.None? ==>
                    r == Failure(ResourceNotFound("Patient", "Id", ById(dto.patientId))))
              && (appointment.Some? && patient.Some? && doctor.None? ==>
                    r == Failure(ResourceNotFound("Doctor", "Id", ById(dto.doctorId))))
              && (appointment.Some? && patient.Some? && doctor.Some?
                  && (appointment.value.patientId != dto.patientId || appointment.value.doctorId != dto.doctorId) ==>
                    r == Failure(ApiError(MismatchMessage)))
              && (r.Success? <==>
                    && appointment.Some? && patient.Some? && doctor.Some?
                    && appointment.value.patientId == dto.patientId && appointment.value.doctorId == dto.doctorId)
      ensures r.Failure? ==> db.records == old(db.records)
      ensures r.Success? ==>
                && |db.records| == |old(db.records)| + 1
                && var rec := db.records[|old(db.records)|];
                && db.records == old(db.records) + [rec]
                && rec.recordId == recordId && rec.createdAt == createdAt
                && rec.patient == FindPatientById(db.patients, dto.patientId).value
                && rec.doctor == FindDoctorById(db.doctors, dto.doctorId).value
                && rec.reason == dto.reason && rec.diagnosis == dto.diagnosis && rec.notes == dto.notes
                && (rec.prescriptions.None? <==> dto.prescriptions.None? || dto.prescriptions.value == [])
                && (rec.prescriptions.Some? ==>
                      && |rec.prescriptions.value| == |dto.prescriptions.value|
                      && forall i :: 0 <= i < |rec.prescriptions.value| ==>
                           rec.prescriptions.value[i] == Prescription(dto.prescriptions.value[i], recordId))
                && r.value == ToDto(rec)
    {
      var appointment := AppointmentRepository.FindById(db.appointments, dto.appointmentId);
      if appointment.None? {
        return Failure(ResourceNotFound("Appointment", "Id", ById(dto.appointmentId)));
      }
      var patient := FindPatientById(db.patients, dto.patientId);
      if patient.None? {
        return Failure(ResourceNotFound("Patient", "Id", ById(dto.patientId)));
      }
      var doctor := FindDoctorById(db.doctors, dto.doctorId);
      if doctor.None? {
        return Failure(ResourceNotFound("Doctor", "Id", ById(dto.doctorId)));
      }
      if appointment.value.patientId != patient.value.patientId
         || appointment.value.doctorId != doctor.value.doctorId {
        return Failure(ApiError(MismatchMessage));
      }

      var prescriptions: Option<seq<Prescription>> := None;
      if dto.prescriptions.Some? && dto.prescriptions.value != [] {
        var attached := AttachPrescriptions(dto.prescriptions.value, recordId);
        prescriptions := Some(attached);
      }
      var record := MedicalRecord(recordId, patient.value, doctor.value, dto.reason, dto.diagnosis,
                                  dto.notes, createdAt, prescriptions);
      db.records := db.records + [record];
      r := Success(ToDto(record));
    }
  }
}
