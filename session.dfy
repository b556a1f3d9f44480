/** The session of main(): the fields of st.session_state and one method per
    button a user can press.  A method requires the page on which its button
    is rendered; the clock, the random digits, the password salt, the result
    of sending the reset e-mail and the assistant's reply are parameters. */
module Helpdesk {
  import opened HelpdeskTypes
  import opened FormRules
  import opened ResetCodes
  import opened Chatbot
  import opened Storage

  /** The pages each navigation button on page p leads to.  Logged-in pages
      show the sidebar (Dashboard, Policy Inquiry, Denied Inquiry) as well as
      their own buttons. */
  function NavTargets(p: Page): (targets: set<Page>)
    ensures forall q :: q in targets ==> q.IsMemberPage() == p.IsMemberPage()
    ensures ResetPassword !in targets
    ensures p.IsMemberPage() ==> targets == {Dashboard, PolicyInquiry, DeniedInquiry}
  {
    match p
    case Home => {Login, SignUp}
    case Login => {Home, ForgotPassword, SignUp}
    case ForgotPassword => {Login}
    case ResetPassword => {ForgotPassword}
    case SignUp => {Home}
    case Dashboard => {Dashboard, PolicyInquiry, DeniedInquiry}
    case PolicyInquiry => {Dashboard, PolicyInquiry, DeniedInquiry}
    case DeniedInquiry => {Dashboard, PolicyInquiry, DeniedInquiry}
  }

  datatype SignUpOutcome =
    | InvalidEmailFormat | SignUpPasswordsDiffer | SignUpFieldsMissing
    | SignedUp | EmailAlreadyRegistered

  datatype ResetRequestOutcome = EmailNotFound | SendFailed | CodeSent

  datatype ResetOutcome = InvalidOrExpiredCode | NewPasswordsDiffer | PasswordChanged

  datatype PolicyOutcome = InvalidMobile | PolicyFieldsMissing | Recommended(policy: string)

  datatype DeniedOutcome = DeniedFieldsMissing | DocumentNotWritten | DenialRecorded(reason: string, documentPath: Option<string>)

  /** all([name, email, dob, age, password]) on the sign-up form: the date
      never fails the test, an age of 0 does. */
  function SignUpFieldsPresent(name: string, email: string, dob: Date, age: Age, password: string): (ok: bool)
    ensures ok <==> name != "" && email != "" && age != 0 && password != ""
  {
    var values := [Text(name), Text(email), Day(dob), Number(age), Text(password)];
    assert Truthy(values[0]) && Truthy(values[1]) && Truthy(values[3]) && Truthy(values[4]) ==> AllTruthy(values);
    AllTruthy(values)
  }

  /** all([name, age, gender, mobile_number, dob, place, insurance_policy]) on
      the policy inquiry form: gender and date never fail the test. */
  function PolicyFieldsPresent(name: string, age: Age, gender: Gender, mobileNumber: string,
                               dob: Date, place: string, insurancePolicy: string): (ok: bool)
    ensures ok <==> name != "" && age != 0 && mobileNumber != "" && place != "" && insurancePolicy != ""
  {
    var values := [Text(name), Number(age), Choice(gender), Text(mobileNumber), Day(dob), Text(place), Text(insurancePolicy)];
    assert Truthy(values[0]) && Truthy(values[1]) && Truthy(values[3]) && Truthy(values[5]) && Truthy(values[6])
      ==> AllTruthy(values);
    AllTruthy(values)
  }

  /** all([patient_name, patient_id, policy_id, policy_name]) on the denied inquiry form. */
  function DeniedFieldsPresent(patientName: string, patientId: string, policyId: string, policyName: string): (ok: bool)
    ensures ok <==> patientName != "" && patientId != "" && policyId != "" && policyName != ""
  {
    var values := [Text(patientName), Text(patientId), Text(policyId), Text(policyName)];
    assert Truthy(values[0]) && Truthy(values[1]) && Truthy(values[2]) && Truthy(values[3]) ==> AllTruthy(values);
    AllTruthy(values)
  }

  class Session {
    var loggedIn: bool
    var userEmail: Option<string>
    var page: Page
    var chatHistory: seq<Message>
    var resetCode: Option<string>
    var resetEmail: Option<string>
    var resetCodeExpiry: Option<int>
    const db: Database

    /** The session invariant. */
    ghost predicate Valid()
      reads this, db
    {
      && db.Valid()
      // logged in exactly on the three member pages, and then as a registered user
      && (loggedIn <==> page.IsMemberPage())
      && (loggedIn ==> userEmail.Some? && userEmail.value in db.users)
      // code, e-mail and expiry of a reset challenge are set together
      && (resetCode.Some? <==> resetEmail.Some?)
      && (resetCode.Some? <==> resetCodeExpiry.Some?)
      && (resetCode.Some? ==> IsResetCode(resetCode.value))
      && (resetEmail.Some? ==> resetEmail.value in db.users)
      // the reset page is only reached once a code was issued
      && (page == ResetPassword ==> resetCode.Some?)
    }

    /** The outstanding reset challenge. */
    ghost function Challenge(): (Option<string>, Option<string>, Option<int>)
      reads this
    {
      (resetCode, resetEmail, resetCodeExpiry)
    }

    /** The submitted code matches, the reset e-mail is set and the code has not expired. */
    ghost predicate CodeAccepted(code: string, now: int)
      reads this
    {
      && resetCode == Some(code)
      && resetEmail.Some? && resetEmail.value != ""
      && resetCodeExpiry.Some? && Unexpired(now, resetCodeExpiry.value)
    }

    /** The session-state initialisation of a fresh session. */
    constructor (db: Database)
      requires db.Valid()
      ensures Valid() && this.db == db
      ensures !loggedIn && userEmail == None && page == Home && chatHistory == []
      ensures resetCode == None && resetEmail == None && resetCodeExpiry == None
    {
      loggedIn := false;
      userEmail := None;
      page := Home;
      chatHistory := [];
      resetCode := None;
      resetEmail := None;
      resetCodeExpiry := None;
      this.db := db;
    }

    /** A button that only changes the page (Login, Sign Up, Back, Forgot
        Password, and the dashboard and sidebar links). */
    method Navigate(target: Page)
      requires Valid() && target in NavTargets(page)
      modifies this
      ensures Valid()
      ensures page == target
      ensures loggedIn == old(loggedIn) && userEmail == old(userEmail)
      ensures chatHistory == old(chatHistory) && Challenge() == old(Challenge())
    {
      page := target;
    }

    /** The Login button: enters the dashboard exactly when the e-mail is
        registered, whatever the password. */
    method LogIn(email: string, password: string) returns (ok: bool)
      requires Valid() && page == Login
      modifies this
      ensures Valid()
      ensures ok <==> email in db.users
      ensures ok ==> loggedIn && userEmail == Some(email) && page == Dashboard
      ensures !ok ==> !loggedIn && userEmail == old(userEmail) && page == Login
      ensures chatHistory == old(chatHistory) && Challenge() == old(Challenge())
    {
      var user := db.GetUser(email, Some(password));
      if user.Some? {
        loggedIn := true;
        userEmail := Some(email);
        page := Dashboard;
        ok := true;
      } else {
        ok := false;
      }
    }

    /** The sidebar Logout button; the reset challenge is left as it is. */
    method LogOut()
      requires Valid() && loggedIn
      modifies this
      ensures Valid()
      ensures !loggedIn && userEmail == None && page == Home && chatHistory == []
      ensures Challenge() == old(Challenge())
    {
      loggedIn := false;
      userEmail := None;
      page := Home;
      chatHistory := [];
    }

    /** The Sign Up form: e-mail pattern, then matching passwords, then the
        required fields; once all pass the row is saved if the e-mail is new,
        and the page moves to login either way. */
    method SubmitSignUp(name: string, email: string, dob: Date, age: Age, password: string,
                        confirmPassword: string, salt: string)
      returns (outcome: SignUpOutcome)
      requires Valid() && page == SignUp
      modifies this, db
      ensures Valid()
      ensures outcome == (
        if !IsValidEmail(email) then InvalidEmailFormat
        else if password != confirmPassword then SignUpPasswordsDiffer
        else if !SignUpFieldsPresent(name, email, dob, age, password) then SignUpFieldsMissing
        else if email in old(db.users) then EmailAlreadyRegistered
        else SignedUp)
      ensures db.users == if outcome == SignedUp
        then old(db.users)[email := UserRow(name, email, dob, age, HashPassword(password, salt))]
        else old(db.users)
      ensures db.policyInquiries == old(db.policyInquiries) && db.deniedInquiries == old(db.deniedInquiries)
      ensures page == if outcome == SignedUp || outcome == EmailAlreadyRegistered then Login else SignUp
      ensures loggedIn == old(loggedIn) && userEmail == old(userEmail)
      ensures chatHistory == old(chatHistory) && Challenge() == old(Challenge())
    {
      if !IsValidEmail(email) {
        outcome := InvalidEmailFormat;
      } else if password != confirmPassword {
        outcome := SignUpPasswordsDiffer;
      } else if !SignUpFieldsPresent(name, email, dob, age, password) {
        outcome := SignUpFieldsMissing;
      } else {
        var saved := db.SaveUser(name, email, dob, age, password, salt);
        outcome := if saved then SignedUp else EmailAlreadyRegistered;
        page := Login;
      }
    }

    /** The Send Reset Code form: for a registered e-mail a code and its expiry
        are generated and stored with the e-mail before the mail is sent; the
        page moves on only if sending succeeded. */
    method RequestReset(email: string, now: int, draws: seq<int>, sendOk: bool)
      returns (outcome: ResetRequestOutcome)
      requires Valid() && page == ForgotPassword
      requires |draws| == ResetCodeLength && forall j :: 0 <= j < |draws| ==> IsDigitDraw(draws[j])
      modifies this
      ensures Valid()
      ensures outcome == (if email !in db.users then EmailNotFound else if sendOk then CodeSent else SendFailed)
      ensures email !in db.users ==> page == old(page) && Challenge() == old(Challenge())
      ensures email in db.users ==>
        && resetCode == Some(GenerateResetCode(draws))
        && resetEmail == Some(email)
        && resetCodeExpiry == Some(ResetExpiry(now))
        && page == (if sendOk then ResetPassword else ForgotPassword)
      ensures loggedIn == old(loggedIn) && userEmail == old(userEmail) && chatHistory == old(chatHistory)
    {
      var user := db.GetUser(email, None);
      if user.Some? {
        var code := GenerateResetCode(draws);
        resetCodeExpiry := Some(ResetExpiry(now));
        resetCode := Some(code);
        resetEmail := Some(email);
        if sendOk {
          page := ResetPassword;
          outcome := CodeSent;
        } else {
          outcome := SendFailed;
        }
      } else {
        outcome := EmailNotFound;
      }
    }

    /** The Reset Password form: the password of the reset e-mail changes and
        the page moves to login only when the code is accepted and the two new
        passwords match.  The challenge is not cleared. */
    method SubmitReset(code: string, newPassword: string, confirmPassword: string, now: int, salt: string)
      returns (outcome: ResetOutcome)
      requires Valid() && page == ResetPassword
      modifies this, db
      ensures Valid()
      ensures outcome == (
        if !old(CodeAccepted(code, now)) then InvalidOrExpiredCode
        else if newPassword != confirmPassword then NewPasswordsDiffer
        else PasswordChanged)
      ensures outcome == PasswordChanged ==>
        var email := old(resetEmail).value;
        && email in old(db.users)
        && db.users == old(db.users)[email := old(db.users)[email].(passwordHash := HashPassword(newPassword, salt))]
        && page == Login
      ensures outcome != PasswordChanged ==> db.users == old(db.users) && page == ResetPassword
      ensures db.policyInquiries == old(db.policyInquiries) && db.deniedInquiries == old(db.deniedInquiries)
      ensures loggedIn == old(loggedIn) && userEmail == old(userEmail)
      ensures chatHistory == old(chatHistory) && Challenge() == old(Challenge())
    {
      if resetCode == Some(code) && resetEmail.Some? && resetEmail.value != ""
         && now < resetCodeExpiry.value {
        if newPassword == confirmPassword {
          db.UpdatePassword(resetEmail.value, newPassword, salt);
          page := Login;
          outcome := PasswordChanged;
        } else {
          outcome := NewPasswordsDiffer;
        }
      } else {
        outcome := InvalidOrExpiredCode;
      }
    }

    /** The policy inquiry form: the mobile pattern first, then the required
        fields; on success one row is appended and the recommendation reported. */
    method SubmitPolicyInquiry(name: string, age: Age, gender: Gender, mobileNumber: string,
                               dob: Date, place: string, insurancePolicy: string, now: int)
      returns (outcome: PolicyOutcome)
      requires Valid() && page == PolicyInquiry
      modifies db
      ensures Valid()
      ensures outcome == (
        if !IsValidMobile(mobileNumber) then InvalidMobile
        else if !PolicyFieldsPresent(name, age, gender, mobileNumber, dob, place, insurancePolicy) then PolicyFieldsMissing
        else Recommended(RecommendedPolicy(age)))
      ensures db.policyInquiries == if outcome.Recommended?
        then old(db.policyInquiries) + [PolicyInquiryRow(name, age, gender, mobileNumber, dob, place, insurancePolicy, now)]
        else old(db.policyInquiries)
      ensures db.users == old(db.users) && db.deniedInquiries == old(db.deniedInquiries)
    {
      if !IsValidMobile(mobileNumber) {
        outcome := InvalidMobile;
      } else if PolicyFieldsPresent(name, age, gender, mobileNumber, dob, place, insurancePolicy) {
        var recommendation := db.SavePolicyInquiry(name, age, gender, mobileNumber, dob, place, insurancePolicy, now);
        outcome := Recommended(recommendation);
      } else {
        outcome := PolicyFieldsMissing;
      }
    }

    /** The denied inquiry form: with all four text fields present, an attached
        file (given by its name) is first written to its document path, and
        then one row is appended, its reason derived from the patient id.
        written says whether opening and writing that path succeeded; when it
        fails (a policy id such as "POL/7" names a missing directory) the
        exception ends the run before the row is saved. */
    method SubmitDeniedInquiry(patientName: string, patientId: string, policyId: string, policyName: string,
                               attachment: Option<string>, written: bool, now: int)
      returns (outcome: DeniedOutcome)
      requires Valid() && page == DeniedInquiry
      modifies db
      ensures Valid()
      ensures outcome == (
        if !DeniedFieldsPresent(patientName, patientId, policyId, policyName) then DeniedFieldsMissing
        else if attachment.Some? && !written then DocumentNotWritten
        else DenialRecorded(DenialReason(patientId),
          if attachment.Some? then Some(DocumentPath(patientId, policyId, attachment.value)) else None))
      ensures db.deniedInquiries == if outcome.DenialRecorded?
        then old(db.deniedInquiries)
          + [DeniedInquiryRow(patientName, patientId, policyId, policyName, outcome.reason, outcome.documentPath, now)]
        else old(db.deniedInquiries)
      ensures db.users == old(db.users) && db.policyInquiries == old(db.policyInquiries)
    {
      if !DeniedFieldsPresent(patientName, patientId, policyId, policyName) {
        outcome := DeniedFieldsMissing;
      } else if attachment.Some? && !written {
        outcome := DocumentNotWritten;
      } else {
        var reason := DenialReason(patientId);
        var documentPath := None;
        if attachment.Some? {
          documentPath := Some(DocumentPath(patientId, policyId, attachment.value));
        }
        db.SaveDeniedInquiry(patientName, patientId, policyId, policyName, reason, documentPath, now);
        outcome := DenialRecorded(reason, documentPath);
      }
    }

    /** The chat form, shown on every logged-in page: a non-empty message adds
        the user turn and then the assistant turn; the request holds the
        system prompt, the transcript (already ending in the user turn) and
        the message again.  Nothing is sent when no API key is set. */
    method SendChat(userInput: string, reply: AssistantReply) returns (sent: Option<seq<Message>>)
      requires Valid() && loggedIn
      modifies this
      ensures Valid()
      ensures chatHistory == if userInput == "" then old(chatHistory)
        else old(chatHistory) + [Message(User, userInput), Message(Assistant, ReplyText(reply))]
      ensures sent == if userInput == "" || reply.NoApiKey? then None
        else Some(ChatRequest(old(chatHistory) + [Message(User, userInput)], userInput))
      ensures loggedIn == old(loggedIn) && userEmail == old(userEmail) && page == old(page)
      ensures Challenge() == old(Challenge())
    {
      sent := None;
      if userInput != "" {
        chatHistory := chatHistory + [Message(User, userInput)];
        if !reply.NoApiKey? {
          sent := Some(ChatRequest(chatHistory, userInput));
        }
        chatHistory := chatHistory + [Message(Assistant, ReplyText(reply))];
      }
    }
  }
}
