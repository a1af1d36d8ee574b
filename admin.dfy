// controllers/adminController.js: administrator login, creation of
// government-employee accounts by phone number, the paging of the
// employee list, and the verification step on an employee.
module Admin {
  import opened Common
  import opened AccountModel
  import Store

  // ---------------------------------------------------------------
  // Login

  datatype LoginReply =
    | LoggedIn(admin: nat)
    | CredentialsRequired
    | InvalidCredentials
    | AccountDisabled

  /** `Admin.findOne({ username })`: the first administrator with that
      username. */
  function FindAdmin(admins: seq<AccountModel.Admin>, username: string): (r: Option<nat>)
    ensures r.Some? ==> r.value < |admins| && admins[r.value].username == username &&
                        forall j :: 0 <= j < r.value ==> admins[j].username != username
    ensures r.None? ==> forall j :: 0 <= j < |admins| ==> admins[j].username != username
  {
    if admins == [] then None
    else if admins[0].username == username then Some(0)
    else
      var r := FindAdmin(admins[1..], username);
      if r.Some? then Some(r.value + 1) else None
  }

  /** The outcome of adminLogin, checked in the order the controller
      checks: both credentials present, a known username, an active
      account, and only then the password. `matches(password, hash)`
      stands for the stored bcrypt comparison. */
  function LoginOutcome(admins: seq<AccountModel.Admin>, username: Option<string>, password: Option<string>,
                        matches: (string, string) -> bool): (r: LoginReply)
    ensures r.LoggedIn? ==> Given(username) && FindAdmin(admins, username.value) == Some(r.admin)
    ensures r.LoggedIn? <==>
              Given(username) && Given(password) && FindAdmin(admins, username.value).Some? &&
              admins[FindAdmin(admins, username.value).value].isActive &&
              matches(password.value, admins[FindAdmin(admins, username.value).value].passwordHash)
    ensures r == InvalidCredentials <==>
              Given(username) && Given(password) &&
              (FindAdmin(admins, username.value).None? ||
               (admins[FindAdmin(admins, username.value).value].isActive &&
                !matches(password.value, admins[FindAdmin(admins, username.value).value].passwordHash)))
    ensures r == CredentialsRequired <==> !Given(username) || !Given(password)
    ensures r == AccountDisabled <==>
              Given(username) && Given(password) && FindAdmin(admins, username.value).Some? &&
              !admins[FindAdmin(admins, username.value).value].isActive
  {
    if !Given(username) || !Given(password) then CredentialsRequired
    else
      var i := FindAdmin(admins, username.value);
      if i.None? then InvalidCredentials
      else if !admins[i.value].isActive then AccountDisabled
      else if !matches(password.value, admins[i.value].passwordHash) then InvalidCredentials
      else LoggedIn(i.value)
  }

  /** adminLogin: a successful login stamps lastLogin on that
      administrator and changes nothing else; every refusal changes
      nothing. */
  method AdminLogin(db: Store.Db, username: Option<string>, password: Option<string>,
                    matches: (string, string) -> bool, now: int)
    returns (reply: LoginReply)
    modifies db`admins
    ensures reply == LoginOutcome(old(db.admins), username, password, matches)
    ensures reply.LoggedIn? ==> db.admins == old(db.admins)[reply.admin := old(db.admins)[reply.admin].(lastLogin := Some(now))]
    ensures !reply.LoggedIn? ==> db.admins == old(db.admins)
  {
    reply := LoginOutcome(db.admins, username, password, matches);
    if reply.LoggedIn? {
      db.admins := db.admins[reply.admin := db.admins[reply.admin].(lastLogin := Some(now))];
    }
  }

  /** A disabled account is refused before its password is looked at: the
      reply is the same whatever password is sent and however it would
      compare. */
  lemma DisabledIgnoresPassword(admins: seq<AccountModel.Admin>, username: string, p1: string, p2: string,
                                m1: (string, string) -> bool, m2: (string, string) -> bool)
    requires username != "" && p1 != "" && p2 != ""
    requires LoginOutcome(admins, Some(username), Some(p1), m1) == AccountDisabled
    ensures LoginOutcome(admins, Some(username), Some(p2), m2) == AccountDisabled
  {
  }

  /** An unknown username and a wrong password get the same reply. */
  lemma WrongPasswordLooksUnknown(admins: seq<AccountModel.Admin>, username: string, password: string,
                                  matches: (string, string) -> bool)
    requires username != "" && password != ""
    requires FindAdmin(admins, username).Some? && admins[FindAdmin(admins, username).value].isActive
    requires !matches(password, admins[FindAdmin(admins, username).value].passwordHash)
    ensures LoginOutcome(admins, Some(username), Some(password), matches) ==
            LoginOutcome([], Some(username), Some(password), matches)
  {
  }

  // ---------------------------------------------------------------
  // Phone numbers

  const CountryCode: string := "+91"

  predicate HasCountryCode(p: string)
  {
    |p| >= 3 && p[..3] == CountryCode
  }

  /** The phone as stored: "+91" in front unless it is there already. */
  function NormalizePhone(p: string): (r: string)
    ensures HasCountryCode(r)
    ensures HasCountryCode(p) ==> r == p
    ensures !HasCountryCode(p) ==> r == CountryCode + p
  {
    if HasCountryCode(p) then p else CountryCode + p
  }

  /** Normalising twice is normalising once, and a number with and without
      its country code is the same employee. */
  lemma NormalizeIdempotent(p: string)
    ensures NormalizePhone(NormalizePhone(p)) == NormalizePhone(p)
    ensures NormalizePhone(CountryCode + p) == NormalizePhone(p) || HasCountryCode(p)
  {
    assert (CountryCode + p)[..3] == CountryCode;
  }

  /** Two inputs become the same stored phone exactly when they are equal
      or one is the other with "+91" in front. */
  lemma NormalizeCollisions(p: string, q: string)
    ensures NormalizePhone(p) == NormalizePhone(q) <==>
              p == q || (HasCountryCode(p) && !HasCountryCode(q) && p == CountryCode + q) ||
              (HasCountryCode(q) && !HasCountryCode(p) && q == CountryCode + p)
  {
    if !HasCountryCode(p) && !HasCountryCode(q) && NormalizePhone(p) == NormalizePhone(q) {
      assert p == (CountryCode + p)[3..] == (CountryCode + q)[3..] == q;
    }
  }

  // ---------------------------------------------------------------
  // Creating employees

  datatype EmployeeReply =
    | EmployeeCreated(id: nat)
    | PhoneRequired
    | PhoneTaken
    | EmployeeNotFound
    | BadAction
    | ProfileIncomplete

  predicate EmployeeWithPhone(accounts: seq<Account>, phone: string)
  {
    exists i :: 0 <= i < |accounts| && accounts[i].kind == GovtKind && accounts[i].phone == phone
  }

  /** At most one government employee per stored phone. */
  ghost predicate EmployeePhonesUnique(accounts: seq<Account>)
  {
    forall i, j :: 0 <= i < j < |accounts| && accounts[i].kind == GovtKind && accounts[j].kind == GovtKind ==>
      accounts[i].phone != accounts[j].phone
  }

  /** The new employee as stored: the normalised phone, the given or the
      default department, the designation when one was given, the
      schema's maritalStatus default, role "govt", not yet verified. */
  function NewEmployee(phone: string, department: Option<string>, designation: Option<string>): (a: Account)
    ensures a.kind == GovtKind && a.phone == NormalizePhone(phone) && a.role == Some("govt")
    ensures !a.isVerified && a.otp.None? && a.otpExpires.None?
    ensures "department" in a.profile && "maritalStatus" in a.profile
    ensures a.profile["department"] == (if Given(department) then department.value else "Department of Agriculture")
    ensures a.profile["maritalStatus"] == "N/A"
    ensures "designation" in a.profile <==> designation.Some?
    ensures designation.Some? ==> a.profile["designation"] == designation.value
  {
    var base := if Given(department) then GovtDefaults()["department" := department.value] else GovtDefaults();
    var profile := if designation.Some? then base["designation" := designation.value] else base;
    Account(GovtKind, NormalizePhone(phone), Some("govt"), None, None, false, profile)
  }

  /** createEmployee: a phone is required, and its normalised form must not
      belong to an employee yet. */
  method CreateEmployee(db: Store.Db, phone: Option<string>, department: Option<string>, designation: Option<string>)
    returns (reply: EmployeeReply)
    modifies db`accounts
    ensures !Given(phone) ==> reply == PhoneRequired && db.accounts == old(db.accounts)
    ensures Given(phone) && EmployeeWithPhone(old(db.accounts), NormalizePhone(phone.value)) ==>
              reply == PhoneTaken && db.accounts == old(db.accounts)
    ensures Given(phone) && !EmployeeWithPhone(old(db.accounts), NormalizePhone(phone.value)) ==>
              reply == EmployeeCreated(|old(db.accounts)|) &&
              db.accounts == old(db.accounts) + [NewEmployee(phone.value, department, designation)]
  {
    if !Given(phone) {
      return PhoneRequired;
    }
    if EmployeeWithPhone(db.accounts, NormalizePhone(phone.value)) {
      return PhoneTaken;
    }
    db.accounts := db.accounts + [NewEmployee(phone.value, department, designation)];
    reply := EmployeeCreated(|db.accounts| - 1);
  }

  /** Creating employees keeps their phones unique. */
  lemma CreateKeepsPhonesUnique(accounts: seq<Account>, phone: string, department: Option<string>,
                                designation: Option<string>)
    requires EmployeePhonesUnique(accounts)
    requires !EmployeeWithPhone(accounts, NormalizePhone(phone))
    ensures EmployeePhonesUnique(accounts + [NewEmployee(phone, department, designation)])
  {
    var s := accounts + [NewEmployee(phone, department, designation)];
    forall i, j | 0 <= i < j < |s| && s[i].kind == GovtKind && s[j].kind == GovtKind
      ensures s[i].phone != s[j].phone
    {
      if j == |accounts| {
        assert s[i] == accounts[i];
      } else {
        assert s[i] == accounts[i] && s[j] == accounts[j];
      }
    }
  }

  // ---------------------------------------------------------------
  // Verifying employees

  /** verifyEmployee: the action must be "verify" or "reject" and the
      employee must exist. The controller then requires
      `employee.profileComplete`, a path the GovtEmployee schema does not
      declare, so it is never stored and always reads as undefined: every
      request that gets that far is refused, and the verification and
      rejection assignments after it are never reached. */
  method VerifyEmployee(db: Store.Db, id: nat, action: string) returns (reply: EmployeeReply)
    ensures action != "verify" && action != "reject" ==> reply == BadAction
    ensures (action == "verify" || action == "reject") && !(id < |db.accounts| && db.accounts[id].kind == GovtKind) ==>
              reply == EmployeeNotFound
    ensures (action == "verify" || action == "reject") && id < |db.accounts| && db.accounts[id].kind == GovtKind ==>
              reply == ProfileIncomplete
  {
    if action != "verify" && action != "reject" {
      return BadAction;
    }
    if !(id < |db.accounts| && db.accounts[id].kind == GovtKind) {
      return EmployeeNotFound;
    }
    reply := ProfileIncomplete;
  }

  // ---------------------------------------------------------------
  // Paging the employee list

  /** `(parseInt(page) - 1) * parseInt(limit)` */
  function Skip(page: int, limit: int): (s: int)
    ensures page >= 1 && limit >= 0 ==> s >= 0
  {
    (page - 1) * limit
  }

  /** `Math.ceil(total / limit)`; None where JavaScript gives Infinity or
      NaN (a limit of 0). */
  function Pages(total: nat, limit: int): (r: Option<int>)
    ensures r.None? <==> limit == 0
    ensures limit > 0 ==> r.value >= 0 && total <= r.value * limit && (r.value == 0 || (r.value - 1) * limit < total)
    ensures limit > 0 ==> (r.value == 0 <==> total == 0)
  {
    if limit == 0 then None
    else if limit > 0 then Some((total + limit - 1) / limit)
    else Some(-(total / -limit))
  }

  /** `.skip(skip).limit(limit)` on the sorted matches. MongoDB refuses a
      negative skip; a limit of 0 means no limit, and a negative limit is
      read as its absolute value. */
  function PageOf<T>(s: seq<T>, skip: int, limit: int): (r: Option<seq<T>>)
    ensures r.None? <==> skip < 0
    ensures r.Some? && skip >= |s| ==> r.value == []
    ensures r.Some? && limit > 0 && skip + limit <= |s| ==> r.value == s[skip..skip + limit]
  {
    if skip < 0 then None
    else if skip >= |s| then Some([])
    else
      var n := if limit == 0 then |s| - skip else if limit > 0 then limit else -limit;
      Some(s[skip..if skip + n <= |s| then skip + n else |s|])
  }

  /** Pages 1 to `Pages(|s|, limit)`, joined in order, are exactly the
      list: nothing is skipped or shown twice. */
  lemma PagesCover<T>(s: seq<T>, limit: int)
    requires limit > 0
    ensures JoinPages(s, limit, Pages(|s|, limit).value) == s
  {
    var n := Pages(|s|, limit).value;
    JoinPrefix(s, limit, n);
    if n > 0 {
      assert |s| <= n * limit;
    }
    assert s[..if n * limit <= |s| then n * limit else |s|] == s;
  }

  /** The first `k` pages joined. */
  function JoinPages<T>(s: seq<T>, limit: int, k: nat): seq<T>
    requires limit > 0
  {
    if k == 0 then [] else JoinPages(s, limit, k - 1) + PageOf(s, Skip(k, limit), limit).value
  }

  lemma {:induction false} JoinPrefix<T>(s: seq<T>, limit: int, k: nat)
    requires limit > 0
    ensures JoinPages(s, limit, k) == s[..if k * limit <= |s| then k * limit else |s|]
  {
    if k > 0 {
      JoinPrefix(s, limit, k - 1);
      var a := (k - 1) * limit;
      assert Skip(k, limit) == a;
      assert k * limit == a + limit;
      var lo := if a <= |s| then a else |s|;
      var hi := if a + limit <= |s| then a + limit else |s|;
      assert s[..hi] == s[..lo] + s[lo..hi];
    }
  }
}
