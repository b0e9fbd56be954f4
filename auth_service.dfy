/** Authentication, self-registration of patients and provisioning of
    privileged accounts. The password encoder, the authentication manager
    and the token issuer are collaborators the model does not see: the
    encoder is a function the service is built with, the authentication
    result is an input, and issuing a token is a function parameter. */
module AuthService {
  import opened Tables
  import opened Entities
  import opened Store

  /** The registration request (AuthRequest). */
  datatype AuthRequest = AuthRequest(
    username: string,
    password: string,
    name: string,
    email: string,
    contactNumber: string,
    address: string,
    gender: string,
    bloodGroup: string,
    dateOfBirth: Date)

  /** The provisioning request (AdminUserRequestDTO). */
  datatype AdminUserRequest = AdminUserRequest(
    username: string,
    password: string,
    roleName: string,
    doctorName: string,
    qualification: string,
    specialization: string,
    clinicAddress: string,
    yearOfExperience: int,
    email: string,
    contactNumber: string)

  /** How the authentication manager answered. */
  datatype AuthOutcome =
    | Authenticated
    | Disabled
    | BadCredentials
    /** any other authentication exception, with its message */
    | OtherFailure(message: string)

  type Token = string

  const UserExistsMessage := "User with this username already exists."
  const MissingPatientRoleMessage := "Default role 'PATIENT' not found. Please seed the database."

  /** createAuthenticationToken: a token is issued only after authentication succeeds. */
  function CreateAuthenticationToken(username: string, outcome: AuthOutcome, issueToken: string -> Token): (r: Result<Token, Error>)
    ensures r.Success? <==> outcome == Authenticated
    ensures r.Success? ==> r.value == issueToken(username)
    ensures outcome == Disabled <==> r == Failure(InvalidCredentials("USER_DISABLED"))
    ensures outcome == BadCredentials <==> r == Failure(InvalidCredentials("INVALID_CREDENTIALS"))
    ensures outcome.OtherFailure? ==> r == Failure(AuthenticationFailed(outcome.message))
  {
    match outcome
    case Disabled => Failure(InvalidCredentials("USER_DISABLED"))
    case BadCredentials => Failure(InvalidCredentials("INVALID_CREDENTIALS"))
    case OtherFailure(message) => Failure(AuthenticationFailed(message))
    case Authenticated => Success(issueToken(username))
  }

  predicate IsLowerAscii(c: char) {
    'a' <= c <= 'z'
  }

  function UpperAscii(c: char): (u: char)
    ensures !IsLowerAscii(u)
    ensures !IsLowerAscii(c) ==> u == c
    ensures IsLowerAscii(c) ==> u as int == c as int - 32
  {
    if IsLowerAscii(c) then (c as int - 'a' as int + 'A' as int) as char else c
  }

  /** String.toUpperCase, restricted to ASCII letters. */
  function ToUpperAscii(s: string): (r: string)
    ensures |r| == |s|
    ensures forall i :: 0 <= i < |s| ==> r[i] == UpperAscii(s[i])
  {
    if s == [] then [] else [UpperAscii(s[0])] + ToUpperAscii(s[1..])
  }

  /** Upper-casing an upper-cased name changes nothing. */
  lemma ToUpperAsciiIdempotent(s: string)
    ensures ToUpperAscii(ToUpperAscii(s)) == ToUpperAscii(s)
  {
  }

  /** Role names that differ only in the case of ASCII letters ("doctor",
      "Doctor", "DOCTOR") are looked up as the same role. */
  lemma CaseInsensitiveRoleLookup(roles: seq<Role>, s: string, t: string)
    requires |s| == |t|
    requires forall i :: 0 <= i < |s| ==> s[i] == t[i] || UpperAscii(s[i]) == t[i] || s[i] == UpperAscii(t[i])
    ensures ToUpperAscii(s) == ToUpperAscii(t)
    ensures FindRoleByName(roles, ToUpperAscii(s)) == FindRoleByName(roles, ToUpperAscii(t))
  {
  }

  /** A name with no lower-case letter is looked up as written. */
  lemma UpperCaseNameUnchanged(s: string)
    requires forall i :: 0 <= i < |s| ==> !IsLowerAscii(s[i])
    ensures ToUpperAscii(s) == s
  {
  }

  class AuthServiceImpl {
    const db: Database
    /** PasswordEncoder.encode */
    const encode: string -> string

    constructor (db: Database, encode: string -> string)
      ensures this.db == db && this.encode == encode
    {
      this.db := db;
      this.encode := encode;
    }

    /** registerNewUser: a taken username or a missing PATIENT role fails
        with nothing written; otherwise one account with the encoded password
        and one patient profile linked to it are appended. The new rows' ids
        are supplied by the caller. */
    method RegisterNewUser(req: AuthRequest, userId: Id, patientId: Id) returns (r: Result<Patient, Error>)
      modifies db`users, db`patients
      ensures FindUserByUsername(old(db.users), req.username).Some? ==>
                r == Failure(UserAlreadyExists(UserExistsMessage))
      ensures FindUserByUsername(old(db.users), req.username).None? && FindRoleByName(db.roles, "PATIENT").None? ==>
                r == Failure(ApiError(MissingPatientRoleMessage))
      ensures r.Success? <==>
                FindUserByUsername(old(db.users), req.username).None? && FindRoleByName(db.roles, "PATIENT").Some?
      ensures r.Failure? ==> db.users == old(db.users) && db.patients == old(db.patients)
      ensures r.Success? ==>
                var user := r.value.user;
                && user == User(userId, req.username, encode(req.password), FindRoleByName(db.roles, "PATIENT").value)
                && user.role.name == "PATIENT"
                && db.users == old(db.users) + [user]
                && r.value == Patient(patientId, user, req.name, req.email, req.contactNumber, req.address,
                                      req.gender, req.bloodGroup, req.dateOfBirth)
                && db.patients == old(db.patients) + [r.value]
      ensures r.Success? && old(db.Valid()) ==> FindPatientByUsername(db.patients, req.username) == Some(r.value)
      ensures old(db.Valid()) ==> db.Valid()
    {
      var existing := FindUserByUsername(db.users, req.username);
      if existing.Some? {
        return Failure(UserAlreadyExists(UserExistsMessage));
      }
      var role := FindRoleByName(db.roles, "PATIENT");
      if role.None? {
        return Failure(ApiError(MissingPatientRoleMessage));
      }
      var newUser := User(userId, req.username, encode(req.password), role.value);
      db.users := db.users + [newUser];
      var patient := Patient(patientId, newUser, req.name, req.email, req.contactNumber, req.address,
                             req.gender, req.bloodGroup, req.dateOfBirth);
      db.patients := db.patients + [patient];
      r := Success(patient);
    }

    /** createPrivilegedUser: a taken username fails first; the role is then
        looked up by the upper-cased name and a missing one fails with the name
        as given; otherwise one account with that role and the encoded password
        and one doctor profile linked to it are appended. */
    method CreatePrivilegedUser(dto: AdminUserRequest, userId: Id, doctorId: Id) returns (r: Result<Doctor, Error>)
      modifies db`users, db`doctors
      ensures FindUserByUsername(old(db.users), dto.username).Some? ==>
                r == Failure(UserAlreadyExists(UserExistsMessage))
      ensures FindUserByUsername(old(db.users), dto.username).None? && FindRoleByName(db.roles, ToUpperAscii(dto.roleName)).None? ==>
                r == Failure(RuntimeFailure("Role '" + dto.roleName + "' not found."))
      ensures r.Success? <==>
                FindUserByUsername(old(db.users), dto.username).None? && FindRoleByName(db.roles, ToUpperAscii(dto.roleName)).Some?
      ensures r.Failure? ==> db.users == old(db.users) && db.doctors == old(db.doctors)
      ensures r.Success? ==>
                var user := r.value.user;
                && user == User(userId, dto.username, encode(dto.password), FindRoleByName(db.roles, ToUpperAscii(dto.roleName)).value)
                && user.role.name == ToUpperAscii(dto.roleName)
                && db.users == old(db.users) + [user]
                && r.value == Doctor(doctorId, user, dto.doctorName, dto.qualification, dto.specialization,
                                     dto.clinicAddress, dto.yearOfExperience, dto.email, dto.contactNumber)
                && db.doctors == old(db.doctors) + [r.value]
      ensures old(db.Valid()) ==> db.Valid()
    {
      var existing := FindUserByUsername(db.users, dto.username);
      if existing.Some? {
        return Failure(UserAlreadyExists(UserExistsMessage));
      }
      var role := FindRoleByName(db.roles, ToUpperAscii(dto.roleName));
      if role.None? {
        return Failure(RuntimeFailure("Role '" + dto.roleName + "' not found."));
      }
      var newUser := User(userId, dto.username, encode(dto.password), role.value);
      db.users := db.users + [newUser];
      var doctor := Doctor(doctorId, newUser, dto.doctorName, dto.qualification, dto.specialization,
                           dto.clinicAddress, dto.yearOfExperience, dto.email, dto.contactNumber);
      db.doctors := db.doctors + [doctor];
      r := Success(doctor);
    }
  }

  /** Registering a username a second time fails, whatever the second request holds. */
  method RegisterTwice(service: AuthServiceImpl, first: AuthRequest, second: AuthRequest,
                       userId1: Id, patientId1: Id, userId2: Id, patientId2: Id)
    returns (r1: Result<Patient, Error>, r2: Result<Patient, Error>)
    requires second.username == first.username
    modifies service.db`users, service.db`patients
    ensures r1.Success? ==> r2 == Failure(UserAlreadyExists(UserExistsMessage))
  {
    r1 := service.RegisterNewUser(first, userId1, patientId1);
    r2 := service.RegisterNewUser(second, userId2, patientId2);
  }
}
