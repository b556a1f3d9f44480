/** Sequences of button presses, proved from the session's contracts alone:
    what a user can rely on across several reruns of main(). */
module Scenarios {
  import opened HelpdeskTypes
  import opened FormRules
  import opened ResetCodes
  import opened Storage
  import opened Helpdesk

  /** A fresh session signs up a new user and then logs in with that e-mail.
      The login succeeds with any password, the wrong one included, because
      get_user returns the row whether or not the password matches. */
  method SignUpThenLogIn(db: Database, name: string, email: string, dob: Date, age: Age,
                         password: string, loginPassword: string, salt: string)
    returns (s: Session)
    requires db.Valid() && email !in db.users
    requires IsValidEmail(email) && SignUpFieldsPresent(name, email, dob, age, password)
    modifies db
    ensures s.Valid() && s.db == db
    ensures db.users == old(db.users)[email := UserRow(name, email, dob, age, HashPassword(password, salt))]
    ensures s.loggedIn && s.userEmail == Some(email) && s.page == Dashboard
  {
    s := new Session(db);
    s.Navigate(SignUp);
    var outcome := s.SubmitSignUp(name, email, dob, age, password, password, salt);
    var ok := s.LogIn(email, loginPassword);
  }

  /** A code is requested for a registered e-mail and delivered, then entered
      delay seconds later with matching new passwords: the password changes
      exactly when the code is entered within the ten-minute window. */
  method ResetAfterDelay(s: Session, email: string, now: int, draws: seq<int>, delay: int,
                         newPassword: string, salt: string)
    returns (outcome: ResetOutcome)
    requires s.Valid() && s.page == ForgotPassword
    requires email in s.db.users && email != ""
    requires |draws| == ResetCodeLength && forall j :: 0 <= j < |draws| ==> IsDigitDraw(draws[j])
    modifies s, s.db
    ensures s.Valid()
    ensures outcome == PasswordChanged <==> delay < ResetWindowSeconds
    ensures outcome == PasswordChanged ==>
      s.page == Login && email in s.db.users && s.db.users[email].passwordHash == HashPassword(newPassword, salt)
    ensures outcome != PasswordChanged ==> s.page == ResetPassword && s.db.users == old(s.db.users)
  {
    var requested := s.RequestReset(email, now, draws, true);
    outcome := s.SubmitReset(GenerateResetCode(draws), newPassword, newPassword, now + delay, salt);
  }
}
