/** The appointment table's queries: derived finders, counts, the exact-slot
    existence check and the slot-conflict check used when booking or
    rescheduling. Every query is a pure function of the table. */
module AppointmentRepository {
  import opened Tables
  import opened Entities

  /** Appending a row adds its own position to the matching positions, if it matches. */
  lemma MatchingRowsSnoc(s: seq<Appointment>, x: Appointment, p: Appointment -> bool)
    ensures |set i | 0 <= i < |s + [x]| && p((s + [x])[i])|
         == |set i | 0 <= i < |s| && p(s[i])| + (if p(x) then 1 else 0)
  {
    var before := set i | 0 <= i < |s| && p(s[i]);
    var after := set i | 0 <= i < |s + [x]| && p((s + [x])[i]);
    if p(x) {
      assert after == before + {|s|};
    } else {
      assert after == before;
    }
  }

  /** The number of rows of `s` that satisfy `p`, counted by position. */
  lemma {:induction false} CountIsNumberOfMatchingRows(s: seq<Appointment>, p: Appointment -> bool)
    ensures Count(s, p) == |set i | 0 <= i < |s| && p(s[i])|
  {
    if s != [] {
      var s', x := s[..|s| - 1], s[|s| - 1];
      assert s == s' + [x];
      CountIsNumberOfMatchingRows(s', p);
      CountAppend(s', [x], p);
      assert Count([x], p) == if p(x) then 1 else 0 by {
        assert [x][1..] == [];
      }
      MatchingRowsSnoc(s', x, p);
    }
  }

  /** JpaRepository.findById */
  function FindById(apps: seq<Appointment>, id: Id): (r: Option<Appointment>)
    ensures r.None? <==> forall a :: a in apps ==> a.id != id
    ensures r.Some? ==> r.value in apps && r.value.id == id
  {
    First(apps, (a: Appointment) => a.id == id)
  }

  /** findByPatient_PatientId */
  function FindByPatientId(apps: seq<Appointment>, patientId: Id): (r: seq<Appointment>)
    ensures forall a :: multiset(r)[a] == if a.patientId == patientId then multiset(apps)[a] else 0
  {
    Where(apps, (a: Appointment) => a.patientId == patientId)
  }

  /** findByDoctor_DoctorId, and findByDoctorDoctorId, the same derived query */
  function FindByDoctorId(apps: seq<Appointment>, doctorId: Id): (r: seq<Appointment>)
    ensures forall a :: multiset(r)[a] == if a.doctorId == doctorId then multiset(apps)[a] else 0
  {
    Where(apps, (a: Appointment) => a.doctorId == doctorId)
  }

  /** findByDoctorDoctorIdAndAppointmentDate, and
      findByDoctor_DoctorIdAndAppointmentDate, the same derived query */
  function FindByDoctorIdAndDate(apps: seq<Appointment>, doctorId: Id, date: Date): (r: seq<Appointment>)
    ensures forall a :: multiset(r)[a] ==
                        if a.doctorId == doctorId && a.appointmentDate == date then multiset(apps)[a] else 0
  {
    Where(apps, (a: Appointment) => a.doctorId == doctorId && a.appointmentDate == date)
  }

  /** findByDoctorIdAndPatientId: the appointments between one doctor and one patient */
  function FindByDoctorIdAndPatientId(apps: seq<Appointment>, doctorId: Id, patientId: Id): (r: seq<Appointment>)
    ensures forall a :: multiset(r)[a] ==
                        if a.doctorId == doctorId && a.patientId == patientId then multiset(apps)[a] else 0
  {
    Where(apps, (a: Appointment) => a.doctorId == doctorId && a.patientId == patientId)
  }

  /** countByAppointmentDate */
  function CountByAppointmentDate(apps: seq<Appointment>, date: Date): (n: nat)
    ensures n == |set i | 0 <= i < |apps| && apps[i].appointmentDate == date|
  {
    var onDate := (a: Appointment) => a.appointmentDate == date;
    CountIsNumberOfMatchingRows(apps, onDate);
    assert (set i | 0 <= i < |apps| && onDate(apps[i]))
        == (set i | 0 <= i < |apps| && apps[i].appointmentDate == date);
    Count(apps, onDate)
  }

  /** countByDoctor_DoctorIdAndStatusAndAppointmentDateGreaterThanEqual */
  function CountByDoctorIdAndStatusFromDate(apps: seq<Appointment>, doctorId: Id, status: AppointmentStatus, date: Date): (n: nat)
    ensures n == |set i | 0 <= i < |apps| && apps[i].doctorId == doctorId
                          && apps[i].status == status && apps[i].appointmentDate >= date|
  {
    var matches := (a: Appointment) => a.doctorId == doctorId && a.status == status && a.appointmentDate >= date;
    CountIsNumberOfMatchingRows(apps, matches);
    assert (set i | 0 <= i < |apps| && matches(apps[i]))
        == (set i | 0 <= i < |apps| && apps[i].doctorId == doctorId
                    && apps[i].status == status && apps[i].appointmentDate >= date);
    Count(apps, matches)
  }

  /** Raising the lower date bound never increases the count. */
  lemma {:induction false} CountFromDateAntitone(apps: seq<Appointment>, doctorId: Id, status: AppointmentStatus, date1: Date, date2: Date)
    requires date1 <= date2
    ensures CountByDoctorIdAndStatusFromDate(apps, doctorId, status, date2)
         <= CountByDoctorIdAndStatusFromDate(apps, doctorId, status, date1)
  {
    if apps != [] {
      CountFromDateAntitone(apps[1..], doctorId, status, date1, date2);
    }
  }

  /** The statuses the distinct-patient count includes: PENDING, CONFIRMED and COMPLETED. */
  predicate IsCountedStatus(s: AppointmentStatus) {
    s == Pending || s == Confirmed || s == Completed
  }

  /** The ids of the patients booked with a doctor in a counted status. */
  function DistinctPatientIds(apps: seq<Appointment>, doctorId: Id): (ids: set<Id>)
    ensures ids == set a | a in apps && a.doctorId == doctorId && IsCountedStatus(a.status) :: a.patientId
    ensures |ids| <= Count(apps, (a: Appointment) => a.doctorId == doctorId && IsCountedStatus(a.status))
  {
    if apps == [] then {}
    else
      var rest := DistinctPatientIds(apps[1..], doctorId);
      assert apps == [apps[0]] + apps[1..];
      if apps[0].doctorId == doctorId && IsCountedStatus(apps[0].status) then
        assert |{apps[0].patientId} + rest| <= 1 + |rest|;
        {apps[0].patientId} + rest
      else rest
  }

  /** countDistinctPatientByDoctorId */
  function CountDistinctPatientByDoctorId(apps: seq<Appointment>, doctorId: Id): (n: nat)
    ensures n == |set a | a in apps && a.doctorId == doctorId && IsCountedStatus(a.status) :: a.patientId|
    ensures n <= Count(apps, (a: Appointment) => a.doctorId == doctorId && IsCountedStatus(a.status))
    ensures n <= |apps|
  {
    |DistinctPatientIds(apps, doctorId)|
  }

  /** A cancelled appointment never adds to a doctor's patient count. */
  lemma CancelledNotCounted(apps: seq<Appointment>, a: Appointment, doctorId: Id)
    requires a.status == Cancelled
    ensures CountDistinctPatientByDoctorId(apps + [a], doctorId) == CountDistinctPatientByDoctorId(apps, doctorId)
  {
    assert DistinctPatientIds(apps + [a], doctorId) == DistinctPatientIds(apps, doctorId);
  }

  /** A completed appointment with a patient new to the doctor adds one to the count. */
  lemma CompletedCounted(apps: seq<Appointment>, a: Appointment)
    requires a.status == Completed
    requires a.patientId !in DistinctPatientIds(apps, a.doctorId)
    ensures CountDistinctPatientByDoctorId(apps + [a], a.doctorId) == CountDistinctPatientByDoctorId(apps, a.doctorId) + 1
  {
    assert DistinctPatientIds(apps + [a], a.doctorId) == DistinctPatientIds(apps, a.doctorId) + {a.patientId};
  }

  /** existsByDoctorDoctorIdAndAppointmentDateAndStartTimeAndStatus */
  function ExistsByDoctorIdAndSlotAndStatus(apps: seq<Appointment>, doctorId: Id, date: Date, time: Time, status: AppointmentStatus): (b: bool)
    ensures b <==> exists a :: a in apps && a.doctorId == doctorId && a.appointmentDate == date
                                && a.startTime == time && a.status == status
  {
    Any(apps, (a: Appointment) => a.doctorId == doctorId && a.appointmentDate == date
                                   && a.startTime == time && a.status == status)
  }

  /** existsByDoctorIdAndDateTimeAndStatusNotExcludingId: COUNT(a) > 0 over the
      rows of the doctor at exactly this date and start time whose status is
      not `status` and whose id is not `excludeId`. */
  function ExistsConflict(apps: seq<Appointment>, doctorId: Id, date: Date, time: Time, status: AppointmentStatus, excludeId: Id): (b: bool)
    ensures b <==> exists a :: a in apps && a.doctorId == doctorId && a.appointmentDate == date
                                && a.startTime == time && a.status != status && a.id != excludeId
  {
    Count(apps, (a: Appointment) => a.doctorId == doctorId && a.appointmentDate == date
                                     && a.startTime == time && a.status != status && a.id != excludeId) > 0
  }

  /** An appointment never conflicts with itself when its own id is excluded. */
  lemma NoSelfConflict(apps: seq<Appointment>, a: Appointment, status: AppointmentStatus)
    ensures ExistsConflict(apps + [a], a.doctorId, a.appointmentDate, a.startTime, status, a.id)
        == ExistsConflict(apps, a.doctorId, a.appointmentDate, a.startTime, status, a.id)
  {
  }

  /** Rows whose status is the passed one never cause a conflict. */
  lemma PassedStatusNeverConflicts(apps: seq<Appointment>, b: Appointment, doctorId: Id, date: Date, time: Time, status: AppointmentStatus, excludeId: Id)
    requires b.status == status
    ensures ExistsConflict(apps + [b], doctorId, date, time, status, excludeId)
        == ExistsConflict(apps, doctorId, date, time, status, excludeId)
  {
  }

  /** Slots are points: a row at another start time or on another day never conflicts, however close. */
  lemma OtherSlotNeverConflicts(apps: seq<Appointment>, b: Appointment, doctorId: Id, date: Date, time: Time, status: AppointmentStatus, excludeId: Id)
    requires b.startTime != time || b.appointmentDate != date
    ensures ExistsConflict(apps + [b], doctorId, date, time, status, excludeId)
        == ExistsConflict(apps, doctorId, date, time, status, excludeId)
  {
  }

  /** With CANCELLED as the status to skip, any other row at a slot makes the
      query true for that doctor and slot under any other excluded id. */
  lemma TakenSlotConflicts(apps: seq<Appointment>, a: Appointment, newId: Id)
    requires a in apps && a.status != Cancelled && a.id != newId
    ensures ExistsConflict(apps, a.doctorId, a.appointmentDate, a.startTime, Cancelled, newId)
  {
  }
}
