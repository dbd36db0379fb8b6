/** `POST /register`: the required-field check, the choice of the new
    user's role, and the reply to the store's answer. Password hashing is
    an input: `hashed` is the hash, or `None` when hashing throws. */
module Registration {
  import opened Js
  import opened Http
  import Authorize

  /** The shared secret that lets a registrant ask for the staff role. */
  const AdminCode: string := "SECRET_ADMIN_CODE"
  const MissingFields: string := "Please provide name, email, password, and phone number."
  const RegistrationError: string := "Server error during registration."
  const EmailInUse: string := "Email already in use."
  /** The text the store's error carries when the email is already taken. */
  const UniqueViolation: string := "UNIQUE constraint failed"

  datatype RegisterRequest = RegisterRequest(name: Json, email: Json, password: Json, phone: Json, role: Json, adminCode: Json)

  /** The row inserted into `Users`. */
  datatype NewUser = NewUser(name: Json, email: Json, password: string, phone: Json, role: string)

  /** The row the handler inserts, if it gets that far, and its reply. */
  datatype Registration = Registration(inserted: Option<NewUser>, response: Response<int>)

  /** The role stored for a new user: `staff` exactly when the request asks
      for it and presents the shared secret, `customer` otherwise. No
      registration produces `manager`. */
  function AssignedRole(role: Json, adminCode: Json): (userRole: string)
    ensures userRole == "staff" <==> role == Str("staff") && adminCode == Str(AdminCode)
    ensures userRole == "customer" <==> !(role == Str("staff") && adminCode == Str(AdminCode))
  {
    if role == Str("staff") && adminCode == Str(AdminCode) then "staff" else "customer"
  }

  /** A freshly registered user passes `authorizeStaff` exactly when the
      registration asked for `staff` with the right secret. */
  lemma RegisteredStaffAccess(role: Json, adminCode: Json)
    ensures Authorize.AuthorizeStaff(Str(AssignedRole(role, adminCode))).Next?
        <==> role == Str("staff") && adminCode == Str(AdminCode)
  {
  }

  /** Name, email, password and phone must all be truthy. */
  predicate HasRequiredFields(req: RegisterRequest)
    ensures HasRequiredFields(req) <==>
      req.name !in Falsy && req.email !in Falsy && req.password !in Falsy && req.phone !in Falsy
  {
    Truthy(req.name) && Truthy(req.email) && Truthy(req.password) && Truthy(req.phone)
  }

  /** `POST /register`. `store` is what the store answers to the insert,
      consulted only when an insert is issued. */
  function Register(req: RegisterRequest, hashed: Option<string>, store: Outcome<int>): (r: Registration)
    ensures !HasRequiredFields(req) ==> r == Registration(None, Failure(400, MissingFields))
    ensures HasRequiredFields(req) && hashed.None? ==> r == Registration(None, Failure(500, RegistrationError))
    ensures r.inserted.Some? <==> HasRequiredFields(req) && hashed.Some?
    ensures r.inserted.Some? ==>
      r.inserted.value == NewUser(req.name, req.email, hashed.value, req.phone, AssignedRole(req.role, req.adminCode))
    ensures r.response.Success? <==> r.inserted.Some? && store.Done?
    ensures r.response.Success? ==> r.response == Success(201, store.value)
    ensures r.inserted.Some? && store.Failed? && Includes(store.message, UniqueViolation) ==>
      r.response == Failure(409, EmailInUse)
    ensures r.inserted.Some? && store.Failed? && !Includes(store.message, UniqueViolation) ==>
      r.response == Failure(500, store.message)
  {
    if !HasRequiredFields(req) then Registration(None, Failure(400, MissingFields))
    else if hashed.None? then Registration(None, Failure(500, RegistrationError))
    else
      var user := NewUser(req.name, req.email, hashed.value, req.phone, AssignedRole(req.role, req.adminCode));
      var response :=
        match store
        case Done(id) => Success(201, id)
        case Failed(message) =>
          if Includes(message, UniqueViolation) then Failure(409, EmailInUse) else Failure(500, message);
      Registration(Some(user), response)
  }

  /** No registration stores the `manager` role. */
  lemma RegistrationNeverManager(req: RegisterRequest, hashed: Option<string>, store: Outcome<int>)
    ensures Register(req, hashed, store).inserted.Some? ==>
      Register(req, hashed, store).inserted.value.role in {"customer", "staff"}
  {
  }

  /** The message SQLite's driver gives when the email is already taken. */
  const DuplicateEmailMessage: string := "SQLITE_CONSTRAINT: " + UniqueViolation + ": Users.email"

  lemma DuplicateEmailMessageIsUniqueViolation()
    ensures Includes(DuplicateEmailMessage, UniqueViolation)
  {
    OccursBetween("SQLITE_CONSTRAINT: ", UniqueViolation, ": Users.email");
    IncludesAt(DuplicateEmailMessage, UniqueViolation, |"SQLITE_CONSTRAINT: "|);
  }

  /** A second registration with the same email is answered with 409. */
  lemma DuplicateEmailIsConflict(req: RegisterRequest, hashed: string)
    requires HasRequiredFields(req)
    ensures Register(req, Some(hashed), Failed(DuplicateEmailMessage)).response == Failure(409, EmailInUse)
  {
    DuplicateEmailMessageIsUniqueViolation();
  }
}
