/** The three SQLite tables and the functions that read and write them:
    users keyed by their unique e-mail, and the two append-only inquiry
    tables.  bcrypt is replaced by a symbolic salted hash. */
module Storage {
  import opened HelpdeskTypes
  import opened FormRules

  /** bcrypt.hashpw(password, salt) in the symbolic model. */
  function HashPassword(password: string, salt: string): (d: Digest)
    ensures CheckPassword(password, d)
    ensures forall other :: CheckPassword(other, d) ==> other == password
  {
    Digest(salt, password)
  }

  /** bcrypt.checkpw(password, digest) in the symbolic model: the check
      passes exactly for digests made from this password, under any salt. */
  function CheckPassword(password: string, d: Digest): (ok: bool)
    ensures ok <==> exists salt :: d == Digest(salt, password)
  {
    d.secret == password
  }

  class Database {
    var users: map<string, UserRow>
    var policyInquiries: seq<PolicyInquiryRow>
    var deniedInquiries: seq<DeniedInquiryRow>

    /** Each user row is filed under its own e-mail (the UNIQUE column). */
    ghost predicate Valid()
      reads this
    {
      forall email :: email in users ==> users[email].email == email
    }

    constructor ()
      ensures Valid()
      ensures users == map[] && policyInquiries == [] && deniedInquiries == []
    {
      users := map[];
      policyInquiries := [];
      deniedInquiries := [];
    }

    /** save_user: inserts a row with the hashed password, or reports the
        UNIQUE violation and changes nothing when the e-mail is taken. */
    method SaveUser(name: string, email: string, dob: Date, age: Age, password: string, salt: string)
      returns (saved: bool)
      requires Valid()
      modifies this
      ensures Valid()
      ensures saved <==> email !in old(users)
      ensures users == if saved
        then old(users)[email := UserRow(name, email, dob, age, HashPassword(password, salt))]
        else old(users)
      ensures policyInquiries == old(policyInquiries) && deniedInquiries == old(deniedInquiries)
    {
      if email in users {
        saved := false;
      } else {
        users := users[email := UserRow(name, email, dob, age, HashPassword(password, salt))];
        saved := true;
      }
    }

    /** get_user: the row for the e-mail when there is one.  When a password is
        given and matches, that row is returned; when it does not match, the
        code falls through and returns the same row anyway. */
    function GetUser(email: string, password: Option<string>): (row: Option<UserRow>)
      reads this
      ensures row.Some? <==> email in users
      ensures row.Some? ==> row.value == users[email]
    {
      if email in users && password.Some? && password.value != ""
         && CheckPassword(password.value, users[email].passwordHash)
      then Some(users[email])
      else if email in users then Some(users[email])
      else None
    }

    /** update_password: re-hashes the password of the row with that e-mail;
        an UPDATE that matches no row changes nothing. */
    method UpdatePassword(email: string, newPassword: string, salt: string)
      requires Valid()
      modifies this
      ensures Valid()
      ensures users == if email in old(users)
        then old(users)[email := old(users)[email].(passwordHash := HashPassword(newPassword, salt))]
        else old(users)
      ensures policyInquiries == old(policyInquiries) && deniedInquiries == old(deniedInquiries)
    {
      if email in users {
        users := users[email := users[email].(passwordHash := HashPassword(newPassword, salt))];
      }
    }

    /** save_policy_inquiry: appends one row stamped with now and returns the
        recommendation it reports. */
    method SavePolicyInquiry(name: string, age: Age, gender: Gender, mobileNumber: string,
                             dob: Date, place: string, insurancePolicy: string, now: int)
      returns (recommendation: string)
      modifies this
      ensures policyInquiries == old(policyInquiries)
        + [PolicyInquiryRow(name, age, gender, mobileNumber, dob, place, insurancePolicy, now)]
      ensures recommendation == RecommendedPolicy(age)
      ensures users == old(users) && deniedInquiries == old(deniedInquiries)
    {
      policyInquiries := policyInquiries
        + [PolicyInquiryRow(name, age, gender, mobileNumber, dob, place, insurancePolicy, now)];
      recommendation := RecommendedPolicy(age);
    }

    /** save_denied_inquiry: appends one row stamped with now. */
    method SaveDeniedInquiry(patientName: string, patientId: string, policyId: string, policyName: string,
                             denialReason: string, documentPath: Option<string>, now: int)
      modifies this
      ensures deniedInquiries == old(deniedInquiries)
        + [DeniedInquiryRow(patientName, patientId, policyId, policyName, denialReason, documentPath, now)]
      ensures users == old(users) && policyInquiries == old(policyInquiries)
    {
      deniedInquiries := deniedInquiries
        + [DeniedInquiryRow(patientName, patientId, policyId, policyName, denialReason, documentPath, now)];
    }
  }

  /** The password given to get_user never decides the outcome: a registered
      e-mail gets its row back with any password, a wrong one included. */
  lemma GetUserIgnoresPassword(db: Database, email: string, password: string, other: string)
    ensures db.GetUser(email, Some(password)) == db.GetUser(email, Some(other)) == db.GetUser(email, None)
  {
  }
}
