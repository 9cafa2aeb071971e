/** The account record shared by all five roles. */
module UserModel {
  import opened Wrappers
  import opened RescueRequestModel

  datatype Role = Citizen | Ngo | Hospital | Ambulance | Admin

  /** The wire names of the roles; a citizen is stored as "user". */
  function RoleName(r: Role): string {
    match r
    case Citizen => "user"
    case Ngo => "ngo"
    case Hospital => "hospital"
    case Ambulance => "ambulance"
    case Admin => "admin"
  }

  /** The organisation roles, whose accounts an administrator must approve. */
  predicate IsOrgRole(r: Role) {
    r == Ngo || r == Hospital || r == Ambulance
  }

  /** A profile location; both coordinates are null until the owner sets them. */
  datatype UserLocation = UserLocation(lat: Option<real>, lng: Option<real>)

  /**
   * One account. `walletBalance` matters for citizens, `linkedHospital` and
   * `isAvailable` for ambulances.
   */
  datatype Account = Account(
    role: Role,
    walletBalance: real,
    isApproved: bool,
    location: UserLocation,
    linkedHospital: Option<UserId>,
    isAvailable: bool,
    createdAt: Time)

  /** The `walletBalance` validator: a balance may never be negative. */
  predicate ValidAccount(a: Account) {
    a.walletBalance >= 0.0
  }

  /**
   * A location counts as set only when both coordinates are truthy, so a
   * coordinate of exactly 0 reads as missing.
   */
  predicate HasLocation(loc: UserLocation) {
    loc.lat.Some? && loc.lat.value != 0.0 && loc.lng.Some? && loc.lng.value != 0.0
  }

  /** The `isApproved` default, computed from the role. */
  function DefaultApproval(role: Role): bool {
    role == Citizen || role == Admin
  }

  /**
   * An account as the store creates it from a role (absent: a citizen);
   * every other field takes its schema default.
   */
  function NewAccount(role: Option<Role>, now: Time): (a: Account)
    ensures a.role == role.GetOr(Citizen)
    ensures a.isApproved <==> !IsOrgRole(a.role)
    ensures a.walletBalance == 0.0 && ValidAccount(a)
    ensures a.isAvailable && a.linkedHospital.None? && a.location.lat.None? && a.location.lng.None?
    ensures !HasLocation(a.location)
    ensures a.createdAt == now
  {
    var r := role.GetOr(Citizen);
    Account(r, 0.0, DefaultApproval(r), UserLocation(None, None), None, true, now)
  }
}
