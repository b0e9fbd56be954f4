# Hospital Appointment Management System — a Dafny model of its decision logic

The Hospital Appointment Management System (HAMS) is a Spring REST backend.
It registers patients, provisions doctor and admin accounts, books
appointments and keeps medical records. This project models the part of it
that makes decisions:

- **Appointment queries** (`AppointmentRepository`, file `appointment_repository.dfy`).
  The derived finders and counts, the exact-slot existence query and the
  slot-conflict query are pure functions over the appointment table. Each one
  is stated exactly: which rows a finder returns (as a multiset), which
  positions a count counts, and when an existence query answers true.
- **Medical records** (`MedicalRecordService`, file `medical_record_service.dfy`).
  `createRecord` is a method on a service object that appends to the shared
  record table. It checks the appointment, then the patient, then the
  doctor, then that the appointment belongs to both. The two reads are
  functions over the tables: a filter, then newest first, then the response
  view.
- **Accounts** (`AuthService`, file `auth_service.dfy`). Registration and
  privileged provisioning are methods that append to the user table and to
  the patient or doctor table. Mapping the authentication result to an error
  or a token is a function.

The database is one object, `Store.Database`, with one `seq` field per
table; rows stay in insertion order. Its invariant `Valid()` says that
usernames are unique, that every patient and doctor profile is linked to
a stored account, and that no account has two patient profiles or two
doctor profiles (the one-to-one links that make the single-result lookup
by username well defined). Both account-creating methods preserve it. Ids, dates,
times and timestamps are integers. Generic WHERE / COUNT / EXISTS / lookup
queries are in `tables.dfy`. The entities and error kinds are in
`entities.dfy`.

Collaborators the source calls but that are not modelled:

- The password encoder is a function value the service is constructed with.
- The authentication manager's answer is an input (`AuthOutcome`).
- Issuing a JWT is a function parameter (`issueToken`).
- The signed-in username is a parameter, where the source reads it from the security context.
- New row ids and creation timestamps are parameters.

Error kinds and transactions, as the code has them:

- A disabled account yields `InvalidCredentials("USER_DISABLED")` (`AuthServiceImpl.java:48-49`), and bad credentials yield `InvalidCredentials("INVALID_CREDENTIALS")` (`:50-51`).
- A missing PATIENT role yields an `APIException`, modelled as `ApiError` (`AuthServiceImpl.java:65-66`).
- A missing privileged role yields a plain `RuntimeException`, modelled as `RuntimeFailure`, whose message carries the role name as given (`AuthServiceImpl.java:94-95`).
- `registerNewUser` has no `@Transactional` (`AuthServiceImpl.java:58-59`); `createPrivilegedUser` has one (`:85`). Saves never fail in the model, so the difference does not show.

## Model

| member | source | states |
|---|---|---|
| AppointmentRepository.FindById | hams/src/main/java/com/cognizant/hams/service/impl/MedicalRecordServiceImpl.java:41-42 | findById finds a row with the id exactly when one exists |
| AppointmentRepository.FindByPatientId | hams/src/main/java/com/cognizant/hams/repository/AppointmentRepository.java:17 | returns each of the patient's appointments as often as the table holds it, and nothing else |
| AppointmentRepository.FindByDoctorId | hams/src/main/java/com/cognizant/hams/repository/AppointmentRepository.java:19-21 | returns exactly the doctor's appointments; both derived names (lines 19 and 21) are this one query |
| AppointmentRepository.FindByDoctorIdAndDate | hams/src/main/java/com/cognizant/hams/repository/AppointmentRepository.java:23 | returns exactly the doctor's appointments on that date; line 36 declares the same query under another name |
| AppointmentRepository.FindByDoctorIdAndPatientId | hams/src/main/java/com/cognizant/hams/repository/AppointmentRepository.java:25-27 | returns exactly the appointments having both the doctor id and the patient id |
| AppointmentRepository.CountByAppointmentDate | hams/src/main/java/com/cognizant/hams/repository/AppointmentRepository.java:29 | equals the number of table positions holding an appointment on that date |
| AppointmentRepository.CountByDoctorIdAndStatusFromDate | hams/src/main/java/com/cognizant/hams/repository/AppointmentRepository.java:30-34 | equals the number of positions holding the doctor's appointments with that status on or after the date |
| AppointmentRepository.CountFromDateAntitone | hams/src/main/java/com/cognizant/hams/repository/AppointmentRepository.java:30-34 | raising the lower date bound never increases the count |
| AppointmentRepository.DistinctPatientIds | hams/src/main/java/com/cognizant/hams/repository/AppointmentRepository.java:38 | the set of patient ids over the doctor's PENDING, CONFIRMED or COMPLETED appointments; no larger than the number of such appointments |
| AppointmentRepository.CountDistinctPatientByDoctorId | hams/src/main/java/com/cognizant/hams/repository/AppointmentRepository.java:38-39 | the number of distinct patient ids among the doctor's appointments with a counted status; at most the number of the doctor's appointments with a counted status, and at most the table size |
| AppointmentRepository.CancelledNotCounted | hams/src/main/java/com/cognizant/hams/repository/AppointmentRepository.java:38 | adding a CANCELLED appointment never changes a doctor's distinct-patient count |
| AppointmentRepository.CompletedCounted | hams/src/main/java/com/cognizant/hams/repository/AppointmentRepository.java:38 | a COMPLETED appointment with a patient new to the doctor raises the count by one |
| AppointmentRepository.ExistsByDoctorIdAndSlotAndStatus | hams/src/main/java/com/cognizant/hams/repository/AppointmentRepository.java:41-46 | true exactly when some appointment has the doctor, date, start time and status given, status included |
| AppointmentRepository.ExistsConflict | hams/src/main/java/com/cognizant/hams/repository/AppointmentRepository.java:48-61 | true exactly when some appointment has the doctor, the same date and the same start time, a status other than the given one, and an id other than the excluded one |
| AppointmentRepository.NoSelfConflict | hams/src/main/java/com/cognizant/hams/repository/AppointmentRepository.java:54 | an appointment checked with its own id excluded never conflicts with itself |
| AppointmentRepository.PassedStatusNeverConflicts | hams/src/main/java/com/cognizant/hams/repository/AppointmentRepository.java:53 | a row whose status equals the passed status never causes a conflict |
| AppointmentRepository.OtherSlotNeverConflicts | hams/src/main/java/com/cognizant/hams/repository/AppointmentRepository.java:51-52 | a row at another start time or another date never conflicts, however close |
| AppointmentRepository.TakenSlotConflicts | hams/src/main/java/com/cognizant/hams/repository/AppointmentRepository.java:48-61 | with CANCELLED passed as the status to skip, a row at a slot whose status is not CANCELLED makes the query true for that doctor and slot under any other excluded id |
| Store.FindUserByUsername | hams/src/main/java/com/cognizant/hams/service/impl/AuthServiceImpl.java:60 | finds an account with the username exactly when one exists |
| Store.FindRoleByName | hams/src/main/java/com/cognizant/hams/service/impl/AuthServiceImpl.java:65 | finds a role with the name exactly when one exists |
| Store.FindPatientById | hams/src/main/java/com/cognizant/hams/service/impl/MedicalRecordServiceImpl.java:43-44 | finds a patient with the id exactly when one exists |
| Store.FindPatientByUsername | hams/src/main/java/com/cognizant/hams/service/impl/MedicalRecordServiceImpl.java:79-80 | finds a patient whose account has the username exactly when one exists |
| Store.PatientByUsernameUnique | hams/src/main/java/com/cognizant/hams/service/impl/MedicalRecordServiceImpl.java:79-80 | when no two patient profiles share an account's username, the lookup by a patient's username returns that very patient, as the single-result query does |
| Store.FindDoctorById | hams/src/main/java/com/cognizant/hams/service/impl/MedicalRecordServiceImpl.java:45-46 | finds a doctor with the id exactly when one exists |
| MedicalRecordService.MedicalRecordServiceImpl.CreateRecord | hams/src/main/java/com/cognizant/hams/service/impl/MedicalRecordServiceImpl.java:39-72 | fails naming the first missing of appointment, patient, doctor with its id, or with the mismatch message, and then writes nothing; otherwise appends exactly one record with the looked-up patient and doctor, the request's reason, diagnosis and notes, and prescriptions only when the request has some; returns that record's view |
| MedicalRecordService.AttachPrescriptions | hams/src/main/java/com/cognizant/hams/service/impl/MedicalRecordServiceImpl.java:60-67 | one prescription per requested one, in request order, each pointing back at the new record |
| MedicalRecordService.ToDto | hams/src/main/java/com/cognizant/hams/service/impl/MedicalRecordServiceImpl.java:98-116 | the view carries the record's id, texts and creation time and the linked patient's and doctor's ids and names; it has prescriptions exactly when the record does, as many and with the same payloads |
| MedicalRecordService.SortNewestFirst | hams/src/main/java/com/cognizant/hams/service/impl/MedicalRecordServiceImpl.java:82 | ORDER BY createdAt DESC: the result is newest first and a permutation of its input |
| MedicalRecordService.MapToDtoSort | hams/src/main/java/com/cognizant/hams/service/impl/MedicalRecordServiceImpl.java:84-86 | viewing the sorted rows gives the same views as viewing the rows unsorted, as a multiset |
| MedicalRecordService.RecordsOfPatient | hams/src/main/java/com/cognizant/hams/service/impl/MedicalRecordServiceImpl.java:82 | exactly the records whose patient has the id |
| MedicalRecordService.RecordsOfDoctor | hams/src/main/java/com/cognizant/hams/service/impl/MedicalRecordServiceImpl.java:94 | exactly the records whose doctor has the id |
| MedicalRecordService.NewestFirstViews | hams/src/main/java/com/cognizant/hams/service/impl/MedicalRecordServiceImpl.java:84-86 | the views of the given rows, newest first, nothing added or lost |
| MedicalRecordService.RecordsForPatient | hams/src/main/java/com/cognizant/hams/service/impl/MedicalRecordServiceImpl.java:75-87 | fails with ResourceNotFound("Patient", "username", u) exactly when no patient is linked to u; otherwise returns the views of exactly that patient's records, newest first, and, with one patient profile per account, that patient is the only one linked to u |
| MedicalRecordService.RecordsForDoctor | hams/src/main/java/com/cognizant/hams/service/impl/MedicalRecordServiceImpl.java:89-96 | fails with ResourceNotFound("Doctor", "Id", id) exactly when no doctor has the id; otherwise returns the views of exactly that doctor's records, newest first |
| AuthService.CreateAuthenticationToken | hams/src/main/java/com/cognizant/hams/service/impl/AuthServiceImpl.java:45-56 | disabled maps to InvalidCredentials("USER_DISABLED") and bad credentials to InvalidCredentials("INVALID_CREDENTIALS"); other authentication failures propagate; a token for the username is issued exactly when authentication succeeded |
| AuthService.ToUpperAscii | hams/src/main/java/com/cognizant/hams/service/impl/AuthServiceImpl.java:94 | each character upper-cased, length kept |
| AuthService.ToUpperAsciiIdempotent | hams/src/main/java/com/cognizant/hams/service/impl/AuthServiceImpl.java:94 | upper-casing an upper-cased role name changes nothing |
| AuthService.CaseInsensitiveRoleLookup | hams/src/main/java/com/cognizant/hams/service/impl/AuthServiceImpl.java:94 | two role names that differ only in the case of ASCII letters upper-case to the same name and find the same role |
| AuthService.UpperCaseNameUnchanged | hams/src/main/java/com/cognizant/hams/service/impl/AuthServiceImpl.java:94 | a role name without lower-case letters is looked up as written |
| AuthService.AuthServiceImpl.RegisterNewUser | hams/src/main/java/com/cognizant/hams/service/impl/AuthServiceImpl.java:58-83 | a taken username fails with UserAlreadyExists and a missing PATIENT role with the seeding error, writing nothing; otherwise exactly one PATIENT account with the encoded password and one patient profile linked to it and copied from the request are appended, the username then resolves to that patient, and the store invariant is kept |
| AuthService.AuthServiceImpl.CreatePrivilegedUser | hams/src/main/java/com/cognizant/hams/service/impl/AuthServiceImpl.java:85-116 | a taken username fails with UserAlreadyExists; a role missing under the upper-cased name fails with "Role '<name as given>' not found."; both write nothing; otherwise exactly one account with that role and the encoded password and one doctor linked to it and copied from the request are appended, keeping the store invariant |
| AuthService.RegisterTwice | hams/src/main/java/com/cognizant/hams/service/impl/AuthServiceImpl.java:60-63 | after a successful registration, registering the same username again fails with UserAlreadyExists |

## Left out

- Concurrency and transactions are not modelled; the model is sequential. It does not capture the check-then-act race between the conflict query and an insert, or rollback. Saves never fail, so `registerNewUser` having no `@Transactional` (while `createPrivilegedUser` has one) makes no observable difference here.
- AppointmentRepository.ExistsConflict: the excluded id is always a concrete id. Under SQL semantics a null excluded id makes `a.id <> :excludeAppointmentId` never true, so the query answers false; the model does not cover that case.
- The password encoder is a deterministic function value. A salted encoder (such as BCrypt) gives different outputs for one password, and that is not captured.
- Authentication, `loadUserByUsername` and JWT generation are external library calls. The model takes the authentication result as an input and the token as the result of a function parameter. A failure of `loadUserByUsername` after a successful authentication is not modelled.
- Prescription payloads are copied unchanged, in place of the reflective ModelMapper mapping, both when a record is created and in the view.
- The security context is replaced by a current-username parameter of `RecordsForPatient`.
- Row ids and `createdAt` come from the database. They are parameters of the creating methods; the model does not require them to be fresh.
- MedicalRecordService.SortNewestFirst: records with equal `createdAt` keep table order. The database leaves their order unspecified; the contracts promise only newest-first order and the exact multiset.
- The reads are functions of the tables, so "leaves the store unchanged" and "twice in a row gives the same list" hold by construction. "Fails before any record query" is not observable in a function.
- AuthService.ToUpperAscii: upper-cases ASCII letters only. Java's `toUpperCase` is locale-sensitive and covers all of Unicode.
- Entities are values. Object identity, the setters used to fill new objects, and aliasing between a record and its patient or doctor object are not captured. A record holds copies of its patient and doctor, and a prescription holds its record's id.
- Null request fields are not modelled. Examples: a null role name, which throws inside `toUpperCase`, and a null username. The only null that is modelled is a null prescription list, as `None`. An unset prescription list on a record is also `None`, because the entity's default value is not part of this model.
- The source's `AppointmentStatus` enum is not among the modelled files; `Entities.AppointmentStatus` declares four values. PENDING, CONFIRMED and COMPLETED appear in the query at `AppointmentRepository.java:38`. CANCELLED does not appear in the modelled files; the model adds it as the value its lemmas pass for the conflict query's `:status` parameter (`AppointmentRepository.java:53`, `:59`).
- The controller (`MedicalRecordController.java`) is not modelled: role annotations, HTTP status codes and request validation.
