// models/User.js, Farmer.js, Buyer.js, Vendor.js and GovtEmployee.js: the
// five phone-login account collections, which share the one-time-code
// fields, plus the administrator record the admin controller reads.
module AccountModel {
  import opened Common

  /** Which collection an account lives in. */
  datatype Kind = UserKind | FarmerKind | BuyerKind | VendorKind | GovtKind

  /** An account. Profile fields (name, address, companyName, department,
      maritalStatus, ...) are kept by name in `profile`. Only paths a
      collection's schema declares are stored: the GovtEmployee schema
      declares no createdByAdmin, profileComplete or verification paths,
      and the Farmer schema no isProfileComplete or verificationDeadline,
      so what the controllers write there is never kept. */
  datatype Account = Account(
    kind: Kind,
    phone: string,
    role: Option<string>,
    otp: Option<string>,
    otpExpires: Option<int>,
    isVerified: bool,
    profile: map<string, string>)

  /** A profile field counts as filled when it is present and non-empty. */
  predicate Filled(a: Account, key: string)
  {
    key in a.profile && a.profile[key] != ""
  }

  /** The defaults the GovtEmployee schema gives a new document. */
  function GovtDefaults(): (m: map<string, string>)
    ensures "department" in m && m["department"] == "Department of Agriculture"
    ensures "maritalStatus" in m && m["maritalStatus"] == "N/A"
  {
    map["department" := "Department of Agriculture", "maritalStatus" := "N/A"]
  }

  /** The role the User schema's enum admits. */
  predicate IsUserRole(role: string)
  {
    role == "farmer" || role == "vendor" || role == "buyer" || role == "government employee"
  }

  /** The marital statuses the GovtEmployee schema admits. */
  predicate IsMaritalStatus(s: string)
  {
    s == "single" || s == "married" || s == "divorced" || s == "widowed" || s == "N/A"
  }

  /** models/Admin.js is not part of this model; the admin controller reads
      these fields of it. `passwordHash` is only ever handed to the
      password comparison, which is a parameter of the login. */
  datatype Admin = Admin(username: string, passwordHash: string, isActive: bool, lastLogin: Option<int>)
}
