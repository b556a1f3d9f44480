/** The inline rules of the forms: the sign-up e-mail pattern, the mobile
    number pattern, the recommended policy, the denial reason and the path
    an attached document is written to. */
module FormRules {
  import opened HelpdeskTypes

  predicate IsAsciiDigit(c: char) {
    '0' <= c <= '9'
  }

  /** Index of the first occurrence of c in s, or |s| when there is none. */
  function IndexOf(s: string, c: char): (r: nat)
    ensures r <= |s|
    ensures c !in s[..r]
    ensures forall j :: 0 <= j < r ==> s[j] != c
    ensures r < |s| ==> s[r] == c
  {
    if s == [] then 0
    else if s[0] == c then 0
    else
      var r' := IndexOf(s[1..], c);
      assert s[..1 + r'] == [s[0]] + s[1..][..r'];
      1 + r'
  }

  /** The first occurrence of c is the only index holding c with no c before it. */
  lemma IndexOfUnique(s: string, c: char, i: nat)
    requires i < |s| && s[i] == c && c !in s[..i]
    ensures IndexOf(s, c) == i
  {
  }

  // ---------------------------------------------------------------------
  // Sign-up e-mail check: re.match(r"[^@]+@[^@]+\.[^@]+", email).
  // re.match anchors at the start only, so the pattern has to match a
  // prefix.  Since the last group [^@]+ needs just one character, a prefix
  // matches exactly when the string starts with
  //     local '@' domain '.' c
  // where local and domain are non-empty and '@'-free and c is not '@'.
  // The class [^@] also admits newlines and any other character.
  // ---------------------------------------------------------------------

  /** The '@' at index i and the '.' at index k split a prefix of s as the pattern demands. */
  ghost predicate EmailSplit(s: string, i: int, k: int) {
    && 0 < i && i + 1 < k && k + 1 < |s|
    && s[i] == '@' && '@' !in s[..i]
    && '@' !in s[i + 1..k]
    && s[k] == '.' && s[k + 1] != '@'
  }

  /** Reference definition: some prefix of s matches the sign-up pattern. */
  ghost predicate MatchesEmailPattern(s: string) {
    exists i, k :: EmailSplit(s, i, k)
  }

  /** Scans the domain part from index k for a '.' followed by a non-'@'. */
  function DotFrom(s: string, k: nat): bool
    decreases |s| - k
  {
    if k + 1 >= |s| then false
    else if s[k] == '.' && s[k + 1] != '@' then true
    else if s[k] == '@' then false
    else DotFrom(s, k + 1)
  }

  /** The sign-up e-mail check as a single left-to-right scan. */
  function IsValidEmail(s: string): bool {
    var i := IndexOf(s, '@');
    0 < i && i + 1 < |s| && s[i + 1] != '@' && DotFrom(s, i + 2)
  }

  lemma {:induction false} DotFromCorrect(s: string, i: nat, k: nat)
    requires 0 < i && i + 1 < k <= |s|
    requires s[i] == '@' && '@' !in s[..i] && '@' !in s[i + 1..k]
    ensures DotFrom(s, k) <==> exists k' :: k <= k' && EmailSplit(s, i, k')
    decreases |s| - k
  {
    if k + 1 >= |s| {
      assert forall k' :: k <= k' ==> !EmailSplit(s, i, k');
    } else if s[k] == '.' && s[k + 1] != '@' {
      assert EmailSplit(s, i, k);
    } else if s[k] == '@' {
      forall k' | k <= k'
        ensures !EmailSplit(s, i, k')
      {
        if k < k' && k' <= |s| {
          assert s[i + 1..k'][k - (i + 1)] == '@';
        }
      }
    } else {
      assert s[i + 1..k + 1] == s[i + 1..k] + [s[k]];
      DotFromCorrect(s, i, k + 1);
      assert !EmailSplit(s, i, k);
      if DotFrom(s, k) {
        var k' :| k + 1 <= k' && EmailSplit(s, i, k');
        assert k <= k';
      }
    }
  }

  /** The scan accepts exactly the strings that have a prefix matching the pattern. */
  lemma IsValidEmailCorrect(s: string)
    ensures IsValidEmail(s) <==> MatchesEmailPattern(s)
  {
    var i := IndexOf(s, '@');
    // Any split uses the first '@'.
    forall i', k | EmailSplit(s, i', k)
      ensures i' == i
    {
      IndexOfUnique(s, '@', i');
    }
    if 0 < i && i + 1 < |s| && s[i + 1] != '@' {
      assert s[i + 1..i + 2] == [s[i + 1]];
      DotFromCorrect(s, i, i + 2);
      if MatchesEmailPattern(s) {
        var i', k :| EmailSplit(s, i', k);
        assert i' == i;
      }
    } else if 0 < i && i + 1 < |s| {
      forall k
        ensures !EmailSplit(s, i, k)
      {
        if i + 1 < k <= |s| {
          assert s[i + 1..k][0] == s[i + 1];
        }
      }
    }
  }

  /** A few addresses on either side of the pattern. */
  lemma EmailExamples()
    ensures IsValidEmail("a@b.c")
    ensures !IsValidEmail("a@b")
    ensures !IsValidEmail("@b.c")
    ensures IsValidEmail("a@b.c@d")
  {
  }

  // ---------------------------------------------------------------------
  // Policy inquiry mobile check: re.match(r"^\d{10}$", mobile_number).
  // Python's '$' also matches just before one final newline, so ten
  // digits followed by "\n" pass.  \d is taken as the ASCII digits.
  // ---------------------------------------------------------------------

  const MobileLength := 10

  /** Length of the longest all-digit prefix of s. */
  function LeadingDigits(s: string): (n: nat)
    ensures n <= |s|
    ensures forall j :: 0 <= j < n ==> IsAsciiDigit(s[j])
    ensures n < |s| ==> !IsAsciiDigit(s[n])
  {
    if s == [] || !IsAsciiDigit(s[0]) then 0 else 1 + LeadingDigits(s[1..])
  }

  function IsValidMobile(s: string): (ok: bool)
    ensures ok <==>
      && (|s| == MobileLength || (|s| == MobileLength + 1 && s[MobileLength] == '\n'))
      && forall j :: 0 <= j < MobileLength ==> IsAsciiDigit(s[j])
  {
    LeadingDigits(s) == MobileLength
    && (|s| == MobileLength || (|s| == MobileLength + 1 && s[MobileLength] == '\n'))
  }

  /** Reference definition: s is ten digits, then the end or one final newline. */
  ghost predicate MatchesMobilePattern(s: string) {
    exists digits: string, rest: string ::
      && s == digits + rest
      && |digits| == MobileLength
      && (forall j :: 0 <= j < |digits| ==> IsAsciiDigit(digits[j]))
      && (rest == "" || rest == "\n")
  }

  /** The prefix scan accepts exactly what the pattern's reading accepts. */
  lemma IsValidMobileCorrect(s: string)
    ensures IsValidMobile(s) <==> MatchesMobilePattern(s)
  {
    if IsValidMobile(s) {
      assert s == s[..MobileLength] + s[MobileLength..];
      if |s| == MobileLength + 1 {
        assert s[MobileLength..] == "\n";
      }
    }
    if MatchesMobilePattern(s) {
      var digits, rest :| s == digits + rest && |digits| == MobileLength
        && (forall j :: 0 <= j < |digits| ==> IsAsciiDigit(digits[j])) && (rest == "" || rest == "\n");
      assert forall j :: 0 <= j < MobileLength ==> s[j] == digits[j];
    }
  }

  lemma MobileAccepts()
    ensures IsValidMobile("1234567890")
  {
    var s := "1234567890";
    forall j | 0 <= j < MobileLength
      ensures IsAsciiDigit(s[j])
    {
    }
  }

  lemma MobileRejects()
    ensures !IsValidMobile("12345")
    ensures !IsValidMobile("12345678901")
    ensures !IsValidMobile("12345abcde")
  {
  }

  // ---------------------------------------------------------------------
  // Business rules: recommendation (save_policy_inquiry) and denial reason.
  // ---------------------------------------------------------------------

  const BasicPolicy := "Basic Health Insurance"
  const ComprehensivePolicy := "Comprehensive Health Insurance"
  const InsufficientDocumentation := "Insufficient documentation"
  const PolicyExpired := "Policy expired"

  /** The policy recommended to an applicant of the given age. */
  function RecommendedPolicy(age: int): (r: string)
    ensures r == BasicPolicy || r == ComprehensivePolicy
    ensures r == BasicPolicy <==> age < 30
  {
    if age < 30 then BasicPolicy else ComprehensivePolicy
  }

  /** The reason recorded for a denied claim, derived from the patient id alone. */
  function DenialReason(patientId: string): (r: string)
    ensures r == InsufficientDocumentation || r == PolicyExpired
    ensures r == InsufficientDocumentation <==> |patientId| < 5
  {
    if |patientId| < 5 then InsufficientDocumentation else PolicyExpired
  }

  /** The recommendation switches at age 30. */
  lemma RecommendationBoundary()
    ensures RecommendedPolicy(29) == BasicPolicy
    ensures RecommendedPolicy(30) == ComprehensivePolicy
  {
  }

  /** The denial reason switches at a patient id of five characters. */
  lemma DenialReasonBoundary()
    ensures DenialReason("123") == InsufficientDocumentation
    ensures DenialReason("1234") == InsufficientDocumentation
    ensures DenialReason("12345") == PolicyExpired
  {
  }

  // ---------------------------------------------------------------------
  // Attachment path: f"denied_documents/{patient_id}_{policy_id}_{name}".
  // ---------------------------------------------------------------------

  const DocumentsDir := "denied_documents/"

  function DocumentPath(patientId: string, policyId: string, fileName: string): string {
    DocumentsDir + patientId + "_" + policyId + "_" + fileName
  }

  /** Splits s at the first occurrence of c into the parts before and after it. */
  function SplitOnce(s: string, c: char): Option<(string, string)> {
    var i := IndexOf(s, c);
    if i == |s| then None else Some((s[..i], s[i + 1..]))
  }

  lemma SplitOnceSound(s: string, c: char, before: string, after: string)
    requires SplitOnce(s, c) == Some((before, after))
    ensures c !in before && s == before + [c] + after
  {
  }

  lemma SplitOnceJoin(before: string, c: char, after: string)
    requires c !in before
    ensures SplitOnce(before + [c] + after, c) == Some((before, after))
  {
    var s := before + [c] + after;
    IndexOfUnique(s, c, |before|);
    assert s[..|before|] == before;
    assert s[|before| + 1..] == after;
  }

  /** Splits a path into patient id, policy id and file name at the first two '_' after the directory. */
  function ParseDocumentPath(path: string): Option<(string, string, string)> {
    if |path| < |DocumentsDir| || path[..|DocumentsDir|] != DocumentsDir then None
    else
      match SplitOnce(path[|DocumentsDir|..], '_')
      case None => None
      case Some((patientId, tail)) =>
        match SplitOnce(tail, '_')
        case None => None
        case Some((policyId, fileName)) => Some((patientId, policyId, fileName))
  }

  /** Every path the parser accepts is the path of the parts it returns, and those ids hold no '_'. */
  lemma ParseDocumentPathSound(path: string, patientId: string, policyId: string, fileName: string)
    requires ParseDocumentPath(path) == Some((patientId, policyId, fileName))
    ensures '_' !in patientId && '_' !in policyId
    ensures DocumentPath(patientId, policyId, fileName) == path
  {
  }

  /** When neither id contains '_', the stored path determines the ids and the file name. */
  lemma {:induction false} DocumentPathRoundTrip(patientId: string, policyId: string, fileName: string)
    requires '_' !in patientId && '_' !in policyId
    ensures ParseDocumentPath(DocumentPath(patientId, policyId, fileName)) == Some((patientId, policyId, fileName))
  {
    var path := DocumentPath(patientId, policyId, fileName);
    var tail := policyId + "_" + fileName;
    var rest := patientId + "_" + tail;
    assert path == DocumentsDir + rest;
    assert path[..|DocumentsDir|] == DocumentsDir;
    assert path[|DocumentsDir|..] == rest;
    SplitOnceJoin(patientId, '_', tail);
    SplitOnceJoin(policyId, '_', fileName);
  }

  /** Ids that contain '_' can make two different inquiries write to the same file. */
  lemma DocumentPathsCanCollide()
    ensures DocumentPath("P_1", "Q", "a.pdf") == DocumentPath("P", "1_Q", "a.pdf")
  {
  }
}
