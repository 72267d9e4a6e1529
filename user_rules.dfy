/**
 * The rules of the user directory that do not change state: validation of
 * the admin controller's `store`/`update`, of `register` and of
 * `updateProfile`; the admin-role scoping of lookups; and the guard that
 * protects the last super admin.
 */
module UserRules {
  import opened Wrappers
  import opened Entities
  import opened PhpText

  const MaxTextLength: nat := 255
  const MinPasswordLength: nat := 6

  /** A required `string|max:255` field; `None` is an absent or empty field. */
  predicate RequiredText(s: Option<string>)
  {
    s.Some? && |s.value| <= MaxTextLength
  }

  /** A `nullable|string|max:255` field. */
  predicate OptionalText(s: Option<string>)
  {
    s.None? || |s.value| <= MaxTextLength
  }

  /** `min:6|confirmed`: long enough, and repeated identically in `<field>_confirmation`. */
  predicate PasswordAccepted(password: string, confirmation: Option<string>)
  {
    |password| >= MinPasswordLength && confirmation == Some(password)
  }

  /**
   * `required|string|min:6|confirmed` on a password, which reaches the
   * validator untrimmed: a value of blanks only fails `required`.
   */
  predicate RequiredPassword(password: Option<string>, confirmation: Option<string>)
  {
    password.Some? && Filled(password.value) && PasswordAccepted(password.value, confirmation)
  }

  /** `in:L,P`. */
  predicate GenderAccepted(g: string)
  {
    g == "L" || g == "P"
  }

  /** A user other than row `except` already has `email` (`unique:users,email,except`). */
  predicate EmailTaken(users: map<int, User>, email: string, except: Option<int>)
  {
    exists id :: id in users && Some(id) != except && users[id].email == email
  }

  /** The fields of the admin controller's `store`/`update` requests. */
  datatype AdminRequest = AdminRequest(
    name: Option<string>,
    firstName: Option<string>,
    lastName: Option<string>,
    email: Option<string>,
    birthDate: Option<int>,
    gender: Option<string>,
    password: Option<string>,
    passwordConfirmation: Option<string>,
    role: Option<string>)

  /** `in:admin,super_admin`: the roles the admin directory may assign. */
  function StaffRole(role: Option<string>): (r: Option<Role>)
    ensures r.Some? ==> IsStaff(r.value)
    ensures r.Some? <==> role == Some("admin") || role == Some("super_admin")
  {
    if role == Some("admin") then Some(Admin)
    else if role == Some("super_admin") then Some(SuperAdmin)
    else None
  }

  /**
   * The fields the admin validator rejects. `except` is the row being updated
   * (`None` on `store`); the password is required on `store` and optional on
   * `update`.
   */
  function AdminErrors(req: AdminRequest, users: map<int, User>, except: Option<int>): (r: set<Field>)
    ensures req.password.None? ==> (PasswordField in r <==> except.None?)
    ensures except.None? && req.password.Some? && !Filled(req.password.value) ==> PasswordField in r
    ensures r == {} ==> StaffRole(req.role).Some? && req.email.Some? && !EmailTaken(users, req.email.value, except)
  {
    (if !RequiredText(req.name) then {NameField} else {})
    + (if !RequiredText(req.firstName) then {FirstNameField} else {})
    + (if !RequiredText(req.lastName) then {LastNameField} else {})
    + (if !RequiredText(req.email) || EmailTaken(users, req.email.value, except) then {EmailField} else {})
    + (if req.birthDate.None? then {BirthDateField} else {})
    + (if req.gender.None? || !GenderAccepted(req.gender.value) then {GenderField} else {})
    + (if (except.None? && !RequiredPassword(req.password, req.passwordConfirmation))
          || (req.password.Some? && !PasswordAccepted(req.password.value, req.passwordConfirmation))
       then {PasswordField} else {})
    + (if StaffRole(req.role).None? then {RoleField} else {})
  }

  /**
   * `store` demands a staff role and an email no user has; `update` demands an
   * email no OTHER user has, so an admin may keep their own.
   */
  lemma AdminValidation(req: AdminRequest, users: map<int, User>, id: int)
    ensures AdminErrors(req, users, None) == {} ==>
      && StaffRole(req.role).Some?
      && req.email.Some? && (forall other :: other in users ==> users[other].email != req.email.value)
      && req.password.Some? && Filled(req.password.value)
    ensures AdminErrors(req, users, Some(id)) == {} ==>
      && StaffRole(req.role).Some?
      && req.email.Some? && (forall other :: other in users && other != id ==> users[other].email != req.email.value)
    ensures id in users && req.email == Some(users[id].email) && RequiredText(req.email) &&
            (forall other :: other in users && other != id ==> users[other].email != users[id].email) ==>
      EmailField !in AdminErrors(req, users, Some(id))
  {
  }

  /** `whereIn('role', ['admin', 'super_admin'])->find(id)`: a `user` row is not found. */
  function FindStaff(users: map<int, User>, id: int): (r: Option<User>)
    ensures r.Some? <==> id in users && IsStaff(users[id].role)
    ensures r.Some? ==> r.value == users[id]
  {
    if id in users && IsStaff(users[id].role) then Some(users[id]) else None
  }

  /** `AdminController::show`: the staff row, or 404. */
  function ShowAdmin(users: map<int, User>, id: int): (r: Result<User, ApiError>)
    ensures r.Ok? ==> id in users && IsStaff(users[id].role) && r.value == users[id]
    ensures r.Err? ==> r.error == NotFound && (id !in users || users[id].role == Regular)
  {
    match FindStaff(users, id)
    case Some(u) => Ok(u)
    case None => Err(NotFound)
  }

  /** `AdminController::index` over all pages: the ids of the staff rows. */
  function Staff(users: map<int, User>): (r: set<int>)
    ensures forall id :: id in r <==> id in users && users[id].role != Regular
  {
    set id | id in users && IsStaff(users[id].role)
  }

  /** The ids of the super admins (`User::where('role', 'super_admin')`). */
  function SuperAdmins(users: map<int, User>): set<int>
  {
    set id | id in users && users[id].role == SuperAdmin
  }

  /**
   * The guard of `AdminController::destroy`: the target is a staff row, and a
   * super admin target is not the only super admin.
   */
  predicate MayDelete(users: map<int, User>, id: int)
    ensures MayDelete(users, id) ==> id in users && users[id].role != Regular
  {
    && FindStaff(users, id).Some?
    && (users[id].role == SuperAdmin ==> |SuperAdmins(users)| > 1)
  }

  /** The only super admin cannot be deleted; an `admin` target is never counted against. */
  lemma LastSuperAdminGuard(users: map<int, User>, id: int)
    requires id in users
    ensures users[id].role == SuperAdmin && |SuperAdmins(users)| <= 1 ==> !MayDelete(users, id)
    ensures users[id].role == Admin ==> MayDelete(users, id)
  {
  }

  /** A deletion the guard allows leaves at least one super admin when there was one. */
  lemma DeleteKeepsSuperAdmin(users: map<int, User>, id: int)
    requires MayDelete(users, id)
    requires |SuperAdmins(users)| >= 1
    ensures |SuperAdmins(users - {id})| >= 1
  {
    var before := SuperAdmins(users);
    var after := SuperAdmins(users - {id});
    if users[id].role == SuperAdmin {
      assert after == before - {id};
      assert id in before;
      assert |after| == |before| - 1;
    } else {
      assert after == before;
    }
  }

  /**
   * `AdminController::update` has no such guard: changing the role of the only
   * super admin to `admin` leaves no super admin at all.
   */
  lemma DemotionUnguarded(users: map<int, User>, id: int)
    requires SuperAdmins(users) == {id}
    ensures SuperAdmins(users[id := users[id].(role := Admin)]) == {}
  {
    assert id in SuperAdmins(users);
    var after := users[id := users[id].(role := Admin)];
    forall other | other in after
      ensures after[other].role != SuperAdmin
    {
      if other != id {
        assert other !in SuperAdmins(users);
      }
    }
  }

  /** The fields of a `register` request. */
  datatype RegisterRequest = RegisterRequest(
    name: Option<string>,
    email: Option<string>,
    password: Option<string>,
    passwordConfirmation: Option<string>,
    role: Option<string>)

  /** The fields the `register` validator rejects. */
  function RegisterErrors(req: RegisterRequest, users: map<int, User>): (r: set<Field>)
    ensures r <= {NameField, EmailField, PasswordField, RoleField}
    ensures req.role.None? ==> RoleField !in r
    ensures r == {} ==>
      && req.password.Some? && Filled(req.password.value)
      && |req.password.value| >= MinPasswordLength && req.passwordConfirmation == req.password
  {
    (if !RequiredText(req.name) then {NameField} else {})
    + (if !RequiredText(req.email) || EmailTaken(users, req.email.value, None) then {EmailField} else {})
    + (if !RequiredPassword(req.password, req.passwordConfirmation) then {PasswordField} else {})
    + (if req.role.Some? && ParseRole(req.role.value).None? then {RoleField} else {})
  }

  /** `$request->role ?? 'user'`, for a request the validator accepted. */
  function RegisteredRole(role: Option<string>): (r: Role)
    ensures role.None? ==> r == Regular
    ensures role.Some? && ParseRole(role.value).Some? ==> RoleName(r) == role.value
  {
    if role.Some? && ParseRole(role.value).Some? then ParseRole(role.value).value else Regular
  }

  /**
   * `register` is a public route whose role rule admits all three roles: a
   * well-formed request with a fresh email may register a super admin.
   */
  lemma SelfRegistrationOfAnyRole(req: RegisterRequest, users: map<int, User>)
    requires RequiredText(req.name) && RequiredText(req.email)
    requires forall id :: id in users ==> users[id].email != req.email.value
    requires RequiredPassword(req.password, req.passwordConfirmation)
    requires req.role == Some("super_admin")
    ensures RegisterErrors(req, users) == {}
    ensures RegisteredRole(req.role) == SuperAdmin
  {
  }

  /** The fields of an `updateProfile` request. */
  datatype ProfileRequest = ProfileRequest(
    name: Option<string>,
    firstName: Option<string>,
    lastName: Option<string>,
    email: Option<string>,
    birthDate: Option<int>,
    gender: Option<string>,
    currentPassword: Option<string>,
    password: Option<string>,
    passwordConfirmation: Option<string>)

  /** The fields the `updateProfile` validator rejects; the caller's own email is not a clash. */
  function ProfileErrors(req: ProfileRequest, users: map<int, User>, self: int): (r: set<Field>)
    ensures r <= {NameField, FirstNameField, LastNameField, EmailField, GenderField, CurrentPasswordField, PasswordField}
    ensures req.password.None? ==> PasswordField !in r
    ensures r == {} ==> req.email.Some? && !EmailTaken(users, req.email.value, Some(self))
  {
    (if !RequiredText(req.name) then {NameField} else {})
    + (if !OptionalText(req.firstName) then {FirstNameField} else {})
    + (if !OptionalText(req.lastName) then {LastNameField} else {})
    + (if !RequiredText(req.email) || EmailTaken(users, req.email.value, Some(self)) then {EmailField} else {})
    + (if req.gender.Some? && !GenderAccepted(req.gender.value) then {GenderField} else {})
    + (if req.currentPassword.Some? && |req.currentPassword.value| < MinPasswordLength then {CurrentPasswordField} else {})
    + (if req.password.Some? && !PasswordAccepted(req.password.value, req.passwordConfirmation) then {PasswordField} else {})
  }

  /** `$request->filled('password')`: the profile update asks for a new password. */
  predicate ChangesPassword(req: ProfileRequest)
  {
    req.password.Some? && Filled(req.password.value)
  }

  /** `$request->filled('current_password')`. */
  predicate CurrentPasswordGiven(req: ProfileRequest)
  {
    req.currentPassword.Some? && Filled(req.currentPassword.value)
  }

  /**
   * Six blanks as the password are refused by `register` (`required` fails),
   * yet pass `updateProfile`'s validation there and then count as no new
   * password at all.
   */
  lemma BlankPassword(users: map<int, User>, self: int, p: ProfileRequest)
    requires p.password == Some("      ") && p.passwordConfirmation == p.password
    ensures PasswordField in RegisterErrors(RegisterRequest(Some("n"), Some("e"), p.password, p.password, None), users)
    ensures PasswordField !in ProfileErrors(p, users, self)
    ensures !ChangesPassword(p)
  {
    assert Trim("      ") == [];
  }

  /** The caller may keep their own email on `updateProfile`, but not take another user's. */
  lemma ProfileEmailUniqueness(req: ProfileRequest, users: map<int, User>, self: int, other: int)
    requires self in users && other in users && other != self
    ensures req.email == Some(users[self].email) && RequiredText(req.email) &&
            (forall id :: id in users && id != self ==> users[id].email != users[self].email) ==>
      EmailField !in ProfileErrors(req, users, self)
    ensures req.email == Some(users[other].email) ==> EmailField in ProfileErrors(req, users, self)
  {
  }
}
