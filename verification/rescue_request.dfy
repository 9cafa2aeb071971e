/**
 * The rescue case record: its status enumeration, its schema defaults and the
 * validators the document store applies when a case is created.
 */
module RescueRequestModel {
  import opened Wrappers

  type UserId = nat
  type CaseId = nat
  /** A point in time, in milliseconds since the epoch. */
  type Time = nat

  /** The nine values of the status enumeration. */
  datatype Status =
    | Pending
    | NgoAccepted
    | HospitalEscalated
    | AmbulanceAssigned
    | EnRoute
    | PickedUp
    | Delivered
    | Completed
    | Cancelled

  /** The wire name of a status, as stored and as sent by clients. */
  function StatusName(s: Status): string {
    match s
    case Pending => "pending"
    case NgoAccepted => "ngo_accepted"
    case HospitalEscalated => "hospital_escalated"
    case AmbulanceAssigned => "ambulance_assigned"
    case EnRoute => "en_route"
    case PickedUp => "picked_up"
    case Delivered => "delivered"
    case Completed => "completed"
    case Cancelled => "cancelled"
  }

  /** The enum validator: a string is a status exactly when it is one of the nine names. */
  function ParseStatus(name: string): (r: Option<Status>)
    ensures r.Some? ==> StatusName(r.value) == name
    ensures r.None? ==> forall s: Status :: StatusName(s) != name
  {
    if name == "pending" then Some(Pending)
    else if name == "ngo_accepted" then Some(NgoAccepted)
    else if name == "hospital_escalated" then Some(HospitalEscalated)
    else if name == "ambulance_assigned" then Some(AmbulanceAssigned)
    else if name == "en_route" then Some(EnRoute)
    else if name == "picked_up" then Some(PickedUp)
    else if name == "delivered" then Some(Delivered)
    else if name == "completed" then Some(Completed)
    else if name == "cancelled" then Some(Cancelled)
    else None
  }

  lemma ParseStatusName(s: Status)
    ensures ParseStatus(StatusName(s)) == Some(s)
  {
  }

  datatype CaseLocation = CaseLocation(lat: real, lng: real, address: string)

  /**
   * One rescue case. `user` is the reporting citizen; `rejectedBy` lists the
   * NGOs that declined it. The timestamps are the SLA milestones, null until set.
   */
  datatype RescueRequest = RescueRequest(
    user: UserId,
    description: string,
    images: seq<string>,
    video: Option<string>,
    location: CaseLocation,
    status: Status,
    depositDeducted: bool,
    depositRefunded: bool,
    assignedNGO: Option<UserId>,
    assignedHospital: Option<UserId>,
    assignedAmbulance: Option<UserId>,
    acceptedAt: Option<Time>,
    escalatedAt: Option<Time>,
    ambulanceAssignedAt: Option<Time>,
    enRouteAt: Option<Time>,
    pickedUpAt: Option<Time>,
    deliveredAt: Option<Time>,
    completedAt: Option<Time>,
    adminNotes: string,
    rejectedBy: seq<UserId>,
    createdAt: Time)

  const MaxImages: nat := 5
  const MaxDescriptionLength: nat := 1000

  /** The characters the string trimmer removes: white space and line terminators. */
  predicate IsWhitespace(ch: char) {
    var n := ch as int;
    n == 0x09 || n == 0x0A || n == 0x0B || n == 0x0C || n == 0x0D || n == 0x20
    || n == 0xA0 || n == 0x1680 || (0x2000 <= n <= 0x200A) || n == 0x2028 || n == 0x2029
    || n == 0x202F || n == 0x205F || n == 0x3000 || n == 0xFEFF
  }

  function LeadingSpace(s: string): (n: nat)
    ensures n <= |s|
    ensures forall i | 0 <= i < n :: IsWhitespace(s[i])
    ensures n < |s| ==> !IsWhitespace(s[n])
  {
    if s == [] || !IsWhitespace(s[0]) then 0 else 1 + LeadingSpace(s[1..])
  }

  function TrailingSpace(s: string): (n: nat)
    ensures n <= |s|
    ensures forall i | |s| - n <= i < |s| :: IsWhitespace(s[i])
    ensures n < |s| ==> !IsWhitespace(s[|s| - 1 - n])
  {
    if s == [] || !IsWhitespace(s[|s| - 1]) then 0 else 1 + TrailingSpace(s[..|s| - 1])
  }

  /**
   * The string setter applied to the description: the result is the slice of
   * `s` left after dropping white space at both ends.
   */
  function Trim(s: string): (r: string)
    ensures LeadingSpace(s) + |r| <= |s| && r == s[LeadingSpace(s)..LeadingSpace(s) + |r|]
    ensures forall i | LeadingSpace(s) + |r| <= i < |s| :: IsWhitespace(s[i])
    ensures r == [] || (!IsWhitespace(r[0]) && !IsWhitespace(r[|r| - 1]))
    ensures r == [] <==> forall i | 0 <= i < |s| :: IsWhitespace(s[i])
  {
    var a := LeadingSpace(s);
    var t := s[a..];
    t[..|t| - TrailingSpace(t)]
  }

  lemma {:induction false} TrimIdempotent(s: string)
    ensures Trim(Trim(s)) == Trim(s)
  {
    var r := Trim(s);
    assert LeadingSpace(r) == 0;
    assert TrailingSpace(r) == 0;
  }

  /** Whether a character lies outside the basic plane, so that UTF-16 encodes it as a surrogate pair. */
  predicate Astral(ch: char) {
    ch as int >= 0x1_0000
  }

  /**
   * The length a string has for the store's length validator: its number of
   * UTF-16 code units, two for each astral character and one for any other.
   */
  function Utf16Length(s: string): (n: nat)
    ensures |s| <= n <= 2 * |s|
  {
    if s == [] then 0 else (if Astral(s[0]) then 2 else 1) + Utf16Length(s[1..])
  }

  /** Without astral characters the two lengths agree; with only astral characters the code units are twice as many. */
  lemma {:induction false} Utf16LengthByPlane(s: string)
    ensures (forall i | 0 <= i < |s| :: !Astral(s[i])) ==> Utf16Length(s) == |s|
    ensures (forall i | 0 <= i < |s| :: Astral(s[i])) ==> Utf16Length(s) == 2 * |s|
  {
    if s != [] {
      Utf16LengthByPlane(s[1..]);
      assert forall i | 0 <= i < |s[1..]| :: s[1..][i] == s[i + 1];
    }
  }

  /**
   * The schema validators checked when a case is saved: a description that is
   * non-empty after trimming and at most 1000 UTF-16 code units long, and at
   * most 5 images. (Latitude and longitude are required too; here they are
   * always present.)
   */
  predicate ValidRescue(c: RescueRequest) {
    0 < |c.description| && Utf16Length(c.description) <= MaxDescriptionLength && |c.images| <= MaxImages
  }

  /** 501 emoji make 501 characters but 1002 code units, too long for the store. */
  lemma AstralCountsTwice(c: RescueRequest)
    requires c.description == seq(501, _ => '\U{1F436}') && |c.images| <= MaxImages
    ensures |c.description| <= MaxDescriptionLength && !ValidRescue(c)
  {
    assert forall i | 0 <= i < |c.description| :: Astral(c.description[i]);
    Utf16LengthByPlane(c.description);
  }

  /** No NGO, hospital or ambulance is assigned. */
  predicate Unassigned(c: RescueRequest) {
    c.assignedNGO.None? && c.assignedHospital.None? && c.assignedAmbulance.None?
  }

  /** No SLA milestone has been reached. */
  predicate NoMilestones(c: RescueRequest) {
    c.acceptedAt.None? && c.escalatedAt.None? && c.ambulanceAssignedAt.None?
    && c.enRouteAt.None? && c.pickedUpAt.None? && c.deliveredAt.None? && c.completedAt.None?
  }

  /**
   * A case as the store creates it: the given fields, the description trimmed,
   * and every other field at its schema default.
   */
  function NewRescueRequest(user: UserId, description: string, images: seq<string>, video: Option<string>,
                            location: CaseLocation, depositDeducted: bool, now: Time): (c: RescueRequest)
    ensures c.user == user && c.createdAt == now && c.location == location
    ensures c.status == Pending && c.depositDeducted == depositDeducted && !c.depositRefunded
    ensures Unassigned(c) && NoMilestones(c) && c.rejectedBy == [] && c.adminNotes == ""
    ensures ValidRescue(c) <==> 0 < |Trim(description)| && Utf16Length(Trim(description)) <= MaxDescriptionLength && |images| <= MaxImages
  {
    RescueRequest(
      user, Trim(description), images, video, location, Pending, depositDeducted, false,
      None, None, None,
      None, None, None, None, None, None, None,
      "", [], now)
  }
}
