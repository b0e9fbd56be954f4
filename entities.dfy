/** The persistent entities of the hospital system and the errors its
    services raise. Identifiers, dates, times and timestamps are integers:
    the services only compare them for equality and order. */
module Entities {
  import opened Tables

  type Id = int
  /** A calendar day (LocalDate). */
  type Date = int
  /** A time of day (LocalTime). */
  type Time = int
  /** A creation instant of a medical record. */
  type Timestamp = int

  datatype AppointmentStatus = Pending | Confirmed | Completed | Cancelled

  /** An appointment row; the patient and doctor references are kept by id. */
  datatype Appointment = Appointment(
    id: Id,
    patientId: Id,
    doctorId: Id,
    appointmentDate: Date,
    startTime: Time,
    status: AppointmentStatus)

  datatype Role = Role(roleId: Id, name: string)

  /** A login account; `password` holds the encoded password only. */
  datatype User = User(userId: Id, username: string, password: string, role: Role)

  datatype Patient = Patient(
    patientId: Id,
    user: User,
    name: string,
    email: string,
    contactNumber: string,
    address: string,
    gender: string,
    bloodGroup: string,
    dateOfBirth: Date)

  datatype Doctor = Doctor(
    doctorId: Id,
    user: User,
    doctorName: string,
    qualification: string,
    specialization: string,
    clinicAddress: string,
    yearOfExperience: int,
    email: string,
    contactNumber: string)

  /** The fields of a prescription, carried through unchanged. */
  type Payload = string

  /** A prescription with its back-reference to the owning record's id. */
  datatype Prescription = Prescription(payload: Payload, medicalRecordId: Id)

  /** A medical record; `prescriptions` is None while the list is unset. */
  datatype MedicalRecord = MedicalRecord(
    recordId: Id,
    patient: Patient,
    doctor: Doctor,
    reason: string,
    diagnosis: string,
    notes: string,
    createdAt: Timestamp,
    prescriptions: Option<seq<Prescription>>)

  /** The value a ResourceNotFoundException reports: a numeric id or a name. */
  datatype Key = ById(id: Id) | ByName(name: string)

  datatype Error =
    | ResourceNotFound(resourceName: string, fieldName: string, fieldValue: Key)
    /** APIException */
    | ApiError(message: string)
    | UserAlreadyExists(message: string)
    | InvalidCredentials(message: string)
    /** A plain RuntimeException */
    | RuntimeFailure(message: string)
    /** Any other authentication exception, propagated unchanged */
    | AuthenticationFailed(message: string)
}
