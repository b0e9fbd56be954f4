/** The database the services share: one table per entity, rows in
    insertion order, and the single-row lookups the services make on the
    user, role, patient and doctor repositories. */
module Store {
  import opened Tables
  import opened Entities

  /** No two accounts share a username. */
  predicate UniqueUsernames(users: seq<User>) {
    forall i, j :: 0 <= i < j < |users| ==> users[i].username != users[j].username
  }

  /** No two patient profiles belong to accounts with the same username (User and Patient are one-to-one). */
  predicate OnePatientPerAccount(patients: seq<Patient>) {
    forall i, j :: 0 <= i < j < |patients| ==> patients[i].user.username != patients[j].user.username
  }

  /** No two doctor profiles belong to accounts with the same username (User and Doctor are one-to-one). */
  predicate OneDoctorPerAccount(doctors: seq<Doctor>) {
    forall i, j :: 0 <= i < j < |doctors| ==> doctors[i].user.username != doctors[j].user.username
  }

  class Database {
    var users: seq<User>
    var roles: seq<Role>
    var patients: seq<Patient>
    var doctors: seq<Doctor>
    var appointments: seq<Appointment>
    var records: seq<MedicalRecord>

    /** Usernames are unique, every profile is linked to a stored account,
        and no account has two patient profiles or two doctor profiles. */
    ghost predicate Valid()
      reads this
    {
      && UniqueUsernames(users)
      && OnePatientPerAccount(patients)
      && OneDoctorPerAccount(doctors)
      && (forall p :: p in patients ==> p.user in users)
      && (forall d :: d in doctors ==> d.user in users)
    }

    /** A database seeded with roles and appointments only. */
    constructor (roles: seq<Role>, appointments: seq<Appointment>)
      ensures Valid()
      ensures this.roles == roles && this.appointments == appointments
      ensures users == [] && patients == [] && doctors == [] && records == []
    {
      this.roles := roles;
      this.appointments := appointments;
      users, patients, doctors, records := [], [], [], [];
    }
  }

  /** UserRepository.findByUsername */
  function FindUserByUsername(users: seq<User>, username: string): (r: Option<User>)
    ensures r.None? <==> forall u :: u in users ==> u.username != username
    ensures r.Some? ==> r.value in users && r.value.username == username
  {
    First(users, (u: User) => u.username == username)
  }

  /** RoleRepository.findByName */
  function FindRoleByName(roles: seq<Role>, name: string): (r: Option<Role>)
    ensures r.None? <==> forall ro :: ro in roles ==> ro.name != name
    ensures r.Some? ==> r.value in roles && r.value.name == name
  {
    First(roles, (ro: Role) => ro.name == name)
  }

  /** PatientRepository.findById */
  function FindPatientById(patients: seq<Patient>, id: Id): (r: Option<Patient>)
    ensures r.None? <==> forall p :: p in patients ==> p.patientId != id
    ensures r.Some? ==> r.value in patients && r.value.patientId == id
  {
    First(patients, (p: Patient) => p.patientId == id)
  }

  /** PatientRepository.findByUser_Username */
  function FindPatientByUsername(patients: seq<Patient>, username: string): (r: Option<Patient>)
    ensures r.None? <==> forall p :: p in patients ==> p.user.username != username
    ensures r.Some? ==> r.value in patients && r.value.user.username == username
  {
    First(patients, (p: Patient) => p.user.username == username)
  }

  /** With one patient profile per account, the username lookup finds the
      only profile linked to that username, as a single-result query would. */
  lemma PatientByUsernameUnique(patients: seq<Patient>, p: Patient)
    requires OnePatientPerAccount(patients)
    requires p in patients
    ensures FindPatientByUsername(patients, p.user.username) == Some(p)
  {
  }

  /** DoctorRepository.findById */
  function FindDoctorById(doctors: seq<Doctor>, id: Id): (r: Option<Doctor>)
    ensures r.None? <==> forall d :: d in doctors ==> d.doctorId != id
    ensures r.Some? ==> r.value in doctors && r.value.doctorId == id
  {
    First(doctors, (d: Doctor) => d.doctorId == id)
  }
}
