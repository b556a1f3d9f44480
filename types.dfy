/** Value types shared by the helpdesk model: optional values, the page
    names of the session router, form field types and table rows. */
module HelpdeskTypes {

  datatype Option<+T> = None | Some(value: T)

  /** The eight values the session's page_state takes. */
  datatype Page =
    | Home | Login | ForgotPassword | ResetPassword | SignUp
    | Dashboard | PolicyInquiry | DeniedInquiry
  {
    /** The pages rendered by the logged-in branch of main(). */
    predicate IsMemberPage() {
      this == Dashboard || this == PolicyInquiry || this == DeniedInquiry
    }

    /** The string tag the application stores in page_state. */
    function Name(): string {
      match this
      case Home => "home"
      case Login => "login"
      case ForgotPassword => "forgot_password"
      case ResetPassword => "reset_password"
      case SignUp => "signup"
      case Dashboard => "dashboard"
      case PolicyInquiry => "policy_inquiry"
      case DeniedInquiry => "denied_inquiry"
    }
  }

  /** The page a page_state tag stands for; None for a tag main() has no branch for. */
  function PageNamed(name: string): (p: Option<Page>)
    ensures p.Some? ==> p.value.Name() == name
  {
    if name == "home" then Some(Home)
    else if name == "login" then Some(Login)
    else if name == "forgot_password" then Some(ForgotPassword)
    else if name == "reset_password" then Some(ResetPassword)
    else if name == "signup" then Some(SignUp)
    else if name == "dashboard" then Some(Dashboard)
    else if name == "policy_inquiry" then Some(PolicyInquiry)
    else if name == "denied_inquiry" then Some(DeniedInquiry)
    else None
  }

  /** Every page is recovered from its tag, so the tags are pairwise distinct. */
  lemma PageNameRoundTrip(p: Page)
    ensures PageNamed(p.Name()) == Some(p)
  {
  }

  /** A value of a date widget; a date object is always truthy. */
  datatype Date = Date(year: int, month: int, day: int)

  /** The range the age number inputs allow (min_value=0, max_value=150). */
  type Age = a: int | 0 <= a <= 150

  /** The options of the gender select box; each is a non-empty string. */
  datatype Gender = Male | Female | Other

  /** A form value as Python's all() sees it. */
  datatype FieldValue = Text(text: string) | Number(n: int) | Day(date: Date) | Choice(gender: Gender)

  /** Python truthiness of a form value: an empty string and zero are false;
      a date object and a select-box option are always true. */
  predicate Truthy(v: FieldValue) {
    match v
    case Text(t) => t != ""
    case Number(n) => n != 0
    case Day(_) => true
    case Choice(_) => true
  }

  /** all(values): every value is truthy. */
  predicate AllTruthy(values: seq<FieldValue>) {
    forall i :: 0 <= i < |values| ==> Truthy(values[i])
  }

  /** Symbolic output of the salted password hash: the salt it was made with
      and the secret it commits to.  Only CheckPassword looks inside. */
  datatype Digest = Digest(salt: string, secret: string)

  /** A row of the users table (the id column is not modelled). */
  datatype UserRow = UserRow(name: string, email: string, dob: Date, age: Age, passwordHash: Digest)

  /** A row of the policy_inquiries table; the timestamp is in seconds. */
  datatype PolicyInquiryRow = PolicyInquiryRow(
    name: string, age: Age, gender: Gender, mobileNumber: string,
    dob: Date, place: string, insurancePolicy: string, timestamp: int)

  /** A row of the denied_inquiries table; documentPath is NULL (None) when nothing was attached. */
  datatype DeniedInquiryRow = DeniedInquiryRow(
    patientName: string, patientId: string, policyId: string, policyName: string,
    denialReason: string, documentPath: Option<string>, timestamp: int)
}
