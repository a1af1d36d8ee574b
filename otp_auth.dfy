// The phone login shared by controllers/authController.js,
// farmerAuthController.js, buyerAuthController.js, vendorAuthController.js
// and govtAuthController.js: a one-time code is stored with an expiry ten
// minutes ahead, accepted once, then cleared; plus the profile updates
// that follow a login.
module Auth {
  import opened Common
  import opened AccountModel
  import Store

  /** `10 * 60 * 1000` */
  const TenMinutes: int := 600_000

  /** The code the controllers store instead of a generated one. */
  const FixedCode: string := "000000"

  datatype AuthReply =
    | OtpSent
    | FieldsRequired
    | AccountNotFound
    | InvalidOrExpired
    | LoggedIn(id: nat, profileComplete: Option<bool>)
    | Registered(role: Option<string>)
    | NotRegistered
    | ProfileUpdated
    | EmailInUse
    | Unauthorized
    | NoValidFields
    | ServerError

  /** `findOne({ phone })` in the collection of `kind`: the first such
      account. */
  function FindAccount(accounts: seq<Account>, kind: Kind, phone: string): (r: Option<nat>)
    ensures r.Some? ==> r.value < |accounts| && accounts[r.value].kind == kind && accounts[r.value].phone == phone
    ensures r.Some? ==> forall j :: 0 <= j < r.value ==> !(accounts[j].kind == kind && accounts[j].phone == phone)
    ensures r.None? ==> forall j :: 0 <= j < |accounts| ==> !(accounts[j].kind == kind && accounts[j].phone == phone)
  {
    if accounts == [] then None
    else if accounts[0].kind == kind && accounts[0].phone == phone then Some(0)
    else
      var r := FindAccount(accounts[1..], kind, phone);
      if r.Some? then Some(r.value + 1) else None
  }

  /** buyerExists and vendorExists. */
  function AccountExists(accounts: seq<Account>, kind: Kind, phone: Option<string>): (r: AuthReply)
    ensures !Given(phone) <==> r == FieldsRequired
    ensures Given(phone) ==> (r == NotRegistered <==> FindAccount(accounts, kind, phone.value).None?)
    ensures r.Registered? ==> Given(phone) && FindAccount(accounts, kind, phone.value).Some? &&
                              r.role == accounts[FindAccount(accounts, kind, phone.value).value].role
  {
    if !Given(phone) then FieldsRequired
    else
      var i := FindAccount(accounts, kind, phone.value);
      if i.None? then NotRegistered else Registered(accounts[i.value].role)
  }

  // ---------------------------------------------------------------
  // Issuing a code

  /** The code each controller stores: the users' controller always the
      generated one, the farmers' and vendors' always "000000", the
      buyers' and employees' the generated one for a new account and
      "000000" for a returning one. Either way six decimal digits. */
  function CodeFor(kind: Kind, isNew: bool, random: nat): (code: string)
    requires 100_000 <= random <= 999_999
    ensures |code| == 6 && AllDigits(code)
    ensures (kind == FarmerKind || kind == VendorKind) ==> code == FixedCode
    ensures (kind == BuyerKind || kind == GovtKind) && !isNew ==> code == FixedCode
    ensures (kind == UserKind || ((kind == BuyerKind || kind == GovtKind) && isNew)) ==> DigitsValue(code) == random
  {
    var generated := Decimal(random);
    assert Pow10(5) == 100_000 && Pow10(6) == 1_000_000;
    DecimalLength(random, 6);
    DecimalShape(random);
    DecimalRoundTrip(random);
    match kind
    case UserKind => generated
    case FarmerKind => FixedCode
    case VendorKind => FixedCode
    case BuyerKind => if isNew then generated else FixedCode
    case GovtKind => if isNew then generated else FixedCode
  }

  /** The sendOtp request carries what the controller asks for: a phone,
      and for the users' controller a role too. */
  predicate SendValid(kind: Kind, phone: Option<string>, role: Option<string>)
  {
    Given(phone) && (kind == UserKind ==> Given(role))
  }

  /** A new account holding a fresh code, with the schema's defaults. */
  function Fresh(kind: Kind, phone: string, role: Option<string>, code: string, expires: int): (a: Account)
    ensures a.kind == kind && a.phone == phone && a.otp == Some(code) && a.otpExpires == Some(expires)
    ensures !a.isVerified
    ensures kind == UserKind ==> a.role == role
    ensures kind == FarmerKind ==> a.role.None?
    ensures kind == BuyerKind ==> a.role == Some("buyer")
    ensures kind == VendorKind ==> a.role == Some("vendor")
    ensures kind == GovtKind ==> a.role == Some("govt") && a.profile == GovtDefaults()
    ensures kind != GovtKind ==> a.profile == map[]
  {
    var r := match kind
      case UserKind => role
      case FarmerKind => None
      case BuyerKind => Some("buyer")
      case VendorKind => Some("vendor")
      case GovtKind => Some("govt");
    Account(kind, phone, r, Some(code), Some(expires), false, if kind == GovtKind then GovtDefaults() else map[])
  }

  /** A returning account with a new code. Its verification is kept; the
      users' controller also overwrites the role. */
  function Reissued(kind: Kind, a: Account, role: Option<string>, code: string, expires: int): (r: Account)
    ensures r.otp == Some(code) && r.otpExpires == Some(expires)
    ensures r.isVerified == a.isVerified && r.kind == a.kind && r.phone == a.phone && r.profile == a.profile
    ensures r.role == if kind == UserKind then role else a.role
  {
    var b := a.(otp := Some(code), otpExpires := Some(expires));
    if kind == UserKind then b.(role := role) else b
  }

  /** sendOtp of the controller for `kind`. `random` is the value
      `Math.floor(100000 + Math.random() * 900000)`. The users' schema
      refuses a role outside its enum, which fails the save. Only the
      users' controller sends the SMS, after the save; `smsDelivered` is
      whether the SMS service accepted it, and a refusal turns the reply
      into a server error with the new code already stored. */
  method SendOtp(db: Store.Db, kind: Kind, phone: Option<string>, role: Option<string>, random: nat, now: int,
                 smsDelivered: bool)
    returns (reply: AuthReply)
    requires 100_000 <= random <= 999_999
    modifies db`accounts
    ensures !SendValid(kind, phone, role) ==> reply == FieldsRequired && db.accounts == old(db.accounts)
    ensures SendValid(kind, phone, role) && kind == UserKind && !IsUserRole(role.value) ==>
              reply == ServerError && db.accounts == old(db.accounts)
    ensures SendValid(kind, phone, role) && (kind == UserKind ==> IsUserRole(role.value)) ==>
              reply == (if kind == UserKind && !smsDelivered then ServerError else OtpSent) &&
              match FindAccount(old(db.accounts), kind, phone.value)
              case None =>
                db.accounts == old(db.accounts) + [Fresh(kind, phone.value, role, CodeFor(kind, true, random), now + TenMinutes)]
              case Some(i) =>
                db.accounts == old(db.accounts)[i := Reissued(kind, old(db.accounts)[i], role,
                                                              CodeFor(kind, false, random), now + TenMinutes)]
  {
    if !SendValid(kind, phone, role) {
      return FieldsRequired;
    }
    if kind == UserKind && !IsUserRole(role.value) {
      return ServerError;
    }
    var expires := now + TenMinutes;
    var found := FindAccount(db.accounts, kind, phone.value);
    if found.None? {
      db.accounts := db.accounts + [Fresh(kind, phone.value, role, CodeFor(kind, true, random), expires)];
    } else {
      var i := found.value;
      db.accounts := db.accounts[i := Reissued(kind, db.accounts[i], role, CodeFor(kind, false, random), expires)];
    }
    if kind == UserKind && !smsDelivered {
      return ServerError;
    }
    reply := OtpSent;
  }

  // ---------------------------------------------------------------
  // Redeeming a code

  /** The verify check passes: the stored code equals the one sent
      (a cleared code equals nothing) and the expiry is not before now.
      A missing expiry compares as false, so it never expires. */
  predicate Accepts(a: Account, code: string, now: int)
  {
    a.otp == Some(code) && !(a.otpExpires.Some? && a.otpExpires.value < now)
  }

  /** A redeemed account: code and expiry cleared, marked verified. */
  function Redeemed(a: Account): (r: Account)
    ensures r.otp.None? && r.otpExpires.None? && r.isVerified
    ensures r.kind == a.kind && r.phone == a.phone && r.role == a.role && r.profile == a.profile
  {
    a.(otp := None, otpExpires := None, isVerified := true)
  }

  /** The profile check each verifyOtp reports: name, address and Aadhaar
      number for users and farmers; company, contact person and email for
      buyers; name, organisation, GST number and address for vendors. */
  predicate IsProfileComplete(kind: Kind, a: Account)
  {
    match kind
    case UserKind => Filled(a, "name") && Filled(a, "address") && Filled(a, "adharNumber")
    case FarmerKind => Filled(a, "name") && Filled(a, "address") && Filled(a, "adharNumber")
    case BuyerKind => Filled(a, "companyName") && Filled(a, "contactPerson") && Filled(a, "email")
    case VendorKind => Filled(a, "name") && Filled(a, "organizationName") && Filled(a, "gstNumber") && Filled(a, "address")
    case GovtKind => false
  }

  /** What the login reply says about the profile; the employees'
      controller reports nothing. */
  function Completion(kind: Kind, a: Account): (r: Option<bool>)
    ensures kind == GovtKind <==> r.None?
    ensures r.Some? ==> (r.value <==> IsProfileComplete(kind, a))
  {
    if kind == GovtKind then None else Some(IsProfileComplete(kind, a))
  }

  /** verifyOtp of the controller for `kind`. */
  method VerifyOtp(db: Store.Db, kind: Kind, phone: Option<string>, otp: Option<string>, now: int)
    returns (reply: AuthReply)
    modifies db`accounts
    ensures !Given(phone) || !Given(otp) ==> reply == FieldsRequired && db.accounts == old(db.accounts)
    ensures Given(phone) && Given(otp) && FindAccount(old(db.accounts), kind, phone.value).None? ==>
              reply == AccountNotFound && db.accounts == old(db.accounts)
    ensures Given(phone) && Given(otp) && FindAccount(old(db.accounts), kind, phone.value).Some? ==>
              var i := FindAccount(old(db.accounts), kind, phone.value).value;
              if Accepts(old(db.accounts)[i], otp.value, now)
              then reply == LoggedIn(i, Completion(kind, old(db.accounts)[i])) &&
                   db.accounts == old(db.accounts)[i := Redeemed(old(db.accounts)[i])]
              else reply == InvalidOrExpired && db.accounts == old(db.accounts)
  {
    if !Given(phone) || !Given(otp) {
      return FieldsRequired;
    }
    var found := FindAccount(db.accounts, kind, phone.value);
    if found.None? {
      return AccountNotFound;
    }
    var i := found.value;
    if !Accepts(db.accounts[i], otp.value, now) {
      return InvalidOrExpired;
    }
    db.accounts := db.accounts[i := Redeemed(db.accounts[i])];
    reply := LoggedIn(i, Completion(kind, db.accounts[i]));
  }

  /** A code issued at `issued` is accepted exactly when it is the code
      sent and at most ten minutes have passed: an expiry equal to now
      still succeeds. Only the latest code counts. */
  lemma CodeWindow(kind: Kind, a: Account, role: Option<string>, code: string, sent: string, issued: int, now: int)
    ensures Accepts(Reissued(kind, a, role, code, issued + TenMinutes), sent, now) <==>
              sent == code && now <= issued + TenMinutes
    ensures Accepts(Fresh(kind, a.phone, role, code, issued + TenMinutes), sent, now) <==>
              sent == code && now <= issued + TenMinutes
  {
  }

  /** Once accepted, a code cannot be used again, whatever is sent and
      whenever. */
  lemma NoReplay(a: Account, sent: string, now: int)
    ensures !Accepts(Redeemed(a), sent, now)
  {
  }

  /** A second sendOtp replaces the first code: only the newer one is
      accepted. */
  lemma LatestCodeWins(kind: Kind, a: Account, role: Option<string>, c1: string, e1: int, c2: string, e2: int,
                       sent: string, now: int)
    requires Accepts(Reissued(kind, Reissued(kind, a, role, c1, e1), role, c2, e2), sent, now)
    ensures sent == c2
  {
  }

  /** On the farmers' and vendors' controllers, and for every returning
      buyer or employee, "000000" logs in anyone who knows the phone for
      ten minutes after a code is requested. */
  lemma FixedCodeLogsIn(kind: Kind, a: Account, role: Option<string>, random: nat, issued: int, now: int)
    requires 100_000 <= random <= 999_999
    requires kind != UserKind
    requires issued <= now <= issued + TenMinutes
    ensures Accepts(Reissued(kind, a, role, CodeFor(kind, false, random), issued + TenMinutes), FixedCode, now)
  {
  }

  /** Logging in neither fills nor empties the profile. */
  lemma RedeemKeepsCompletion(kind: Kind, a: Account)
    ensures Completion(kind, Redeemed(a)) == Completion(kind, a)
  {
  }

  /** At most one account per phone in each collection. */
  ghost predicate PhonesUnique(accounts: seq<Account>)
  {
    forall i, j :: 0 <= i < j < |accounts| && accounts[i].kind == accounts[j].kind ==>
      accounts[i].phone != accounts[j].phone
  }

  /** sendOtp creates an account only for a phone its collection does not
      hold, and verifyOtp changes no phone, so phones stay unique. */
  lemma LoginKeepsPhonesUnique(accounts: seq<Account>, kind: Kind, phone: string, role: Option<string>,
                               code: string, expires: int, i: nat)
    requires PhonesUnique(accounts)
    ensures FindAccount(accounts, kind, phone).None? ==>
              PhonesUnique(accounts + [Fresh(kind, phone, role, code, expires)])
    ensures i < |accounts| ==> PhonesUnique(accounts[i := Reissued(kind, accounts[i], role, code, expires)])
    ensures i < |accounts| ==> PhonesUnique(accounts[i := Redeemed(accounts[i])])
  {
    if FindAccount(accounts, kind, phone).None? {
      var s := accounts + [Fresh(kind, phone, role, code, expires)];
      forall x, y | 0 <= x < y < |s| && s[x].kind == s[y].kind ensures s[x].phone != s[y].phone {
        assert s[x] == accounts[x];
        if y < |accounts| {
          assert s[y] == accounts[y];
        }
      }
    }
    if i < |accounts| {
      var s := accounts[i := Reissued(kind, accounts[i], role, code, expires)];
      forall x, y | 0 <= x < y < |s| && s[x].kind == s[y].kind ensures s[x].phone != s[y].phone {
        assert s[x].kind == accounts[x].kind && s[x].phone == accounts[x].phone;
        assert s[y].kind == accounts[y].kind && s[y].phone == accounts[y].phone;
      }
      var t := accounts[i := Redeemed(accounts[i])];
      forall x, y | 0 <= x < y < |t| && t[x].kind == t[y].kind ensures t[x].phone != t[y].phone {
        assert t[x].kind == accounts[x].kind && t[x].phone == accounts[x].phone;
        assert t[y].kind == accounts[y].kind && t[y].phone == accounts[y].phone;
      }
    }
  }

  // ---------------------------------------------------------------
  // Profiles

  /** One path of an update document: an absent value is dropped from the
      update and leaves the stored value. */
  function SetGiven(profile: map<string, string>, key: string, v: Option<string>): (r: map<string, string>)
    ensures v.Some? ==> key in r && r[key] == v.value
    ensures forall k :: k != key ==> (k in r <==> k in profile) && (k in r ==> r[k] == profile[k])
    ensures v.None? ==> r == profile
  {
    if v.Some? then profile[key := v.value] else profile
  }

  predicate IsAccount(accounts: seq<Account>, id: nat, kind: Kind)
  {
    id < |accounts| && accounts[id].kind == kind
  }

  /** The name, Aadhaar number and address update the users' and farmers'
      controllers apply. The farmers' controller also sets
      isProfileComplete and unsets verificationDeadline, paths the Farmer
      schema does not declare, so neither is stored. */
  function WithPersonal(a: Account, name: Option<string>, adharNumber: Option<string>, address: Option<string>): Account
  {
    a.(profile := SetGiven(SetGiven(SetGiven(a.profile, "name", name), "adharNumber", adharNumber), "address", address))
  }

  /** updateProfile of the users' controller: there is no not-found
      check, so the reply is the same whether or not the id names a
      user. */
  method UpdateUserProfile(db: Store.Db, userId: nat, name: Option<string>, adharNumber: Option<string>,
                           address: Option<string>)
    returns (reply: AuthReply)
    modifies db`accounts
    ensures reply == ProfileUpdated
    ensures IsAccount(old(db.accounts), userId, UserKind) ==>
              db.accounts == old(db.accounts)[userId := WithPersonal(old(db.accounts)[userId], name, adharNumber, address)]
    ensures !IsAccount(old(db.accounts), userId, UserKind) ==> db.accounts == old(db.accounts)
  {
    if IsAccount(db.accounts, userId, UserKind) {
      db.accounts := db.accounts[userId := WithPersonal(db.accounts[userId], name, adharNumber, address)];
    }
    reply := ProfileUpdated;
  }

  /** updateProfile of the farmers' controller: 404 for an unknown id. */
  method UpdateFarmerProfile(db: Store.Db, farmerId: nat, name: Option<string>, adharNumber: Option<string>,
                             address: Option<string>)
    returns (reply: AuthReply)
    modifies db`accounts
    ensures IsAccount(old(db.accounts), farmerId, FarmerKind) ==>
              reply == ProfileUpdated &&
              db.accounts == old(db.accounts)[farmerId := WithPersonal(old(db.accounts)[farmerId], name, adharNumber, address)]
    ensures !IsAccount(old(db.accounts), farmerId, FarmerKind) ==> reply == AccountNotFound && db.accounts == old(db.accounts)
  {
    if !IsAccount(db.accounts, farmerId, FarmerKind) {
      return AccountNotFound;
    }
    db.accounts := db.accounts[farmerId := WithPersonal(db.accounts[farmerId], name, adharNumber, address)];
    reply := ProfileUpdated;
  }

  /** A farmer who has given all three personal fields logs in with a
      complete profile. */
  lemma FarmerProfileCompletes(a: Account, name: string, adharNumber: string, address: string)
    requires name != "" && adharNumber != "" && address != ""
    ensures IsProfileComplete(FarmerKind, WithPersonal(a, Some(name), Some(adharNumber), Some(address)))
  {
  }

  /** Another buyer already holds this email. */
  predicate EmailHeldByOther(accounts: seq<Account>, email: string, buyerId: nat)
  {
    exists i :: 0 <= i < |accounts| && i != buyerId && accounts[i].kind == BuyerKind &&
                "email" in accounts[i].profile && accounts[i].profile["email"] == email
  }

  /** No two buyers share an email. */
  ghost predicate BuyerEmailsUnique(accounts: seq<Account>)
  {
    forall i, j :: 0 <= i < j < |accounts| && accounts[i].kind == BuyerKind && accounts[j].kind == BuyerKind &&
                   "email" in accounts[i].profile && "email" in accounts[j].profile ==>
      accounts[i].profile["email"] != accounts[j].profile["email"]
  }

  function WithBusiness(a: Account, companyName: string, contactPerson: string, email: string): Account
  {
    a.(profile := a.profile["companyName" := companyName]["contactPerson" := contactPerson]["email" := email])
  }

  /** updateProfile of the buyers' controller: all three fields required,
      an email held by another buyer refused, 404 for an unknown id. */
  method UpdateBuyerProfile(db: Store.Db, buyerId: nat, companyName: Option<string>, contactPerson: Option<string>,
                            email: Option<string>)
    returns (reply: AuthReply)
    modifies db`accounts
    ensures !(Given(companyName) && Given(contactPerson) && Given(email)) ==>
              reply == FieldsRequired && db.accounts == old(db.accounts)
    ensures Given(companyName) && Given(contactPerson) && Given(email) && EmailHeldByOther(old(db.accounts), email.value, buyerId) ==>
              reply == EmailInUse && db.accounts == old(db.accounts)
    ensures Given(companyName) && Given(contactPerson) && Given(email) && !EmailHeldByOther(old(db.accounts), email.value, buyerId) ==>
              if IsAccount(old(db.accounts), buyerId, BuyerKind)
              then reply == ProfileUpdated &&
                   db.accounts == old(db.accounts)[buyerId := WithBusiness(old(db.accounts)[buyerId], companyName.value,
                                                                           contactPerson.value, email.value)]
              else reply == AccountNotFound && db.accounts == old(db.accounts)
  {
    if !(Given(companyName) && Given(contactPerson) && Given(email)) {
      return FieldsRequired;
    }
    if EmailHeldByOther(db.accounts, email.value, buyerId) {
      return EmailInUse;
    }
    if !IsAccount(db.accounts, buyerId, BuyerKind) {
      return AccountNotFound;
    }
    db.accounts := db.accounts[buyerId := WithBusiness(db.accounts[buyerId], companyName.value, contactPerson.value, email.value)];
    reply := ProfileUpdated;
  }

  /** A successful buyer update keeps emails unique, and leaves the buyer
      with a complete profile. */
  lemma BuyerUpdateKeepsEmailsUnique(accounts: seq<Account>, buyerId: nat, companyName: string,
                                     contactPerson: string, email: string)
    requires BuyerEmailsUnique(accounts)
    requires IsAccount(accounts, buyerId, BuyerKind) && !EmailHeldByOther(accounts, email, buyerId)
    requires companyName != "" && contactPerson != "" && email != ""
    ensures var s := accounts[buyerId := WithBusiness(accounts[buyerId], companyName, contactPerson, email)];
            BuyerEmailsUnique(s) && IsProfileComplete(BuyerKind, s[buyerId])
  {
    var s := accounts[buyerId := WithBusiness(accounts[buyerId], companyName, contactPerson, email)];
    forall i, j | 0 <= i < j < |s| && s[i].kind == BuyerKind && s[j].kind == BuyerKind &&
                  "email" in s[i].profile && "email" in s[j].profile
      ensures s[i].profile["email"] != s[j].profile["email"]
    {
      if i == buyerId {
        assert s[j] == accounts[j];
      } else if j == buyerId {
        assert s[i] == accounts[i];
      } else {
        assert s[i] == accounts[i] && s[j] == accounts[j];
      }
    }
  }

  // ---------------------------------------------------------------
  // The employees' whitelisted profile update

  /** The paths updateGovtProfile copies from the request body. */
  const Allowed: seq<string> := ["name", "email", "homeAddress", "maritalStatus", "accountNumber", "IFSCCode"]

  /** The body restricted to the allowed paths it holds. */
  function Whitelist(body: map<string, string>): (w: map<string, string>)
    ensures forall k :: k in w <==> k in body && k in Allowed
    ensures forall k :: k in w ==> w[k] == body[k]
  {
    map k | k in body && k in Allowed :: body[k]
  }

  /** The `forEach` over the allowed paths that builds `updates`. */
  method BuildUpdates(body: map<string, string>) returns (updates: map<string, string>)
    ensures updates == Whitelist(body)
  {
    updates := map[];
    for i := 0 to |Allowed|
      invariant forall k :: k in updates <==> k in body && k in Allowed[..i]
      invariant forall k :: k in updates ==> updates[k] == body[k]
    {
      assert Allowed[..i + 1] == Allowed[..i] + [Allowed[i]];
      if Allowed[i] in body {
        updates := updates[Allowed[i] := body[Allowed[i]]];
      }
    }
    assert Allowed[..|Allowed|] == Allowed;
  }

  /** The schema's enum check on maritalStatus, run before the update. */
  predicate UpdatesValid(updates: map<string, string>)
  {
    "maritalStatus" in updates ==> IsMaritalStatus(updates["maritalStatus"])
  }

  /** updateGovtProfile: the token's employee id must equal the body's
      employeeId; at least one allowed path must be present; validators
      run before the document is looked up; the allowed paths are set
      and every other stored path is kept. */
  method UpdateGovtProfile(db: Store.Db, govtId: Option<nat>, employeeId: Option<nat>, body: map<string, string>)
    returns (reply: AuthReply)
    modifies db`accounts
    ensures govtId.None? || employeeId != govtId ==> reply == Unauthorized && db.accounts == old(db.accounts)
    ensures govtId.Some? && employeeId == govtId && Whitelist(body) == map[] ==>
              reply == NoValidFields && db.accounts == old(db.accounts)
    ensures govtId.Some? && employeeId == govtId && Whitelist(body) != map[] && !UpdatesValid(Whitelist(body)) ==>
              reply == ServerError && db.accounts == old(db.accounts)
    ensures govtId.Some? && employeeId == govtId && Whitelist(body) != map[] && UpdatesValid(Whitelist(body)) ==>
              if IsAccount(old(db.accounts), govtId.value, GovtKind)
              then reply == ProfileUpdated &&
                   db.accounts == old(db.accounts)[govtId.value := old(db.accounts)[govtId.value].(
                                    profile := old(db.accounts)[govtId.value].profile + Whitelist(body))]
              else reply == AccountNotFound && db.accounts == old(db.accounts)
  {
    if govtId.None? || employeeId != govtId {
      return Unauthorized;
    }
    var updates := BuildUpdates(body);
    if updates == map[] {
      return NoValidFields;
    }
    if !UpdatesValid(updates) {
      return ServerError;
    }
    var g := govtId.value;
    if !IsAccount(db.accounts, g, GovtKind) {
      return AccountNotFound;
    }
    db.accounts := db.accounts[g := db.accounts[g].(profile := db.accounts[g].profile + updates)];
    reply := ProfileUpdated;
  }

  /** The reply text for a duplicate-key error: the first key of the
      error's key pattern, or "field". */
  function DuplicateKeyMessage(keyPattern: seq<string>): (m: string)
    ensures |keyPattern| > 0 ==> m == keyPattern[0] + " already exists"
    ensures |keyPattern| == 0 ==> m == "field already exists"
  {
    (if |keyPattern| > 0 then keyPattern[0] else "field") + " already exists"
  }

  /** The update never writes phone or employeeId, the only paths with a
      unique index, so the duplicate-key reply cannot arise from it. */
  lemma WhitelistAvoidsUniquePaths(body: map<string, string>)
    ensures "phone" !in Whitelist(body) && "employeeId" !in Whitelist(body)
  {
  }

  /** Paths outside the whitelist, such as phone, role or department,
      never change through this update. */
  lemma GovtUpdateKeepsOtherPaths(profile: map<string, string>, body: map<string, string>, k: string)
    requires k !in Allowed
    ensures k in profile + Whitelist(body) <==> k in profile
    ensures k in profile ==> (profile + Whitelist(body))[k] == profile[k]
  {
  }
}
