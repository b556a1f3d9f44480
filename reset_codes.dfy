/** The password-reset code of generate_reset_code: six decimal digits,
    valid for ten minutes from the moment it was generated.  The six
    random.randint(0, 9) draws and the clock reading are parameters. */
module ResetCodes {
  import opened FormRules

  const ResetCodeLength := 6

  /** timedelta(minutes=10), in seconds. */
  const ResetWindowSeconds := 10 * 60

  predicate IsDigitDraw(d: int) {
    0 <= d <= 9
  }

  /** str(d) for a single decimal digit d. */
  function DigitChar(d: int): (c: char)
    requires IsDigitDraw(d)
    ensures IsAsciiDigit(c)
  {
    ('0' as int + d) as char
  }

  function DigitValue(c: char): (d: int)
    requires IsAsciiDigit(c)
    ensures IsDigitDraw(d)
  {
    c as int - '0' as int
  }

  /** The shape of every code the application issues. */
  predicate IsResetCode(code: string) {
    |code| == ResetCodeLength && forall j :: 0 <= j < |code| ==> IsAsciiDigit(code[j])
  }

  /** ''.join(str(d) for d in draws): one character per draw, in order. */
  function DigitString(draws: seq<int>): (s: string)
    requires forall j :: 0 <= j < |draws| ==> IsDigitDraw(draws[j])
    ensures |s| == |draws|
    ensures forall j :: 0 <= j < |draws| ==> s[j] == DigitChar(draws[j])
  {
    if draws == [] then "" else [DigitChar(draws[0])] + DigitString(draws[1..])
  }

  /** The digit values of a string of ASCII digits. */
  function CodeDigits(code: string): (ds: seq<int>)
    requires forall j :: 0 <= j < |code| ==> IsAsciiDigit(code[j])
    ensures |ds| == |code|
    ensures forall j :: 0 <= j < |code| ==> IsDigitDraw(ds[j]) && ds[j] == DigitValue(code[j])
  {
    if code == [] then [] else [DigitValue(code[0])] + CodeDigits(code[1..])
  }

  /** The code built from six draws. */
  function GenerateResetCode(draws: seq<int>): (code: string)
    requires |draws| == ResetCodeLength
    requires forall j :: 0 <= j < |draws| ==> IsDigitDraw(draws[j])
    ensures IsResetCode(code)
  {
    DigitString(draws)
  }

  /** The code records its draws: they can be read back from it. */
  lemma GenerateResetCodeInjective(draws: seq<int>)
    requires |draws| == ResetCodeLength
    requires forall j :: 0 <= j < |draws| ==> IsDigitDraw(draws[j])
    ensures CodeDigits(GenerateResetCode(draws)) == draws
  {
  }

  /** Every six-digit code is issued for some draws, namely its own digits. */
  lemma GenerateResetCodeSurjective(code: string)
    requires IsResetCode(code)
    ensures GenerateResetCode(CodeDigits(code)) == code
  {
  }

  /** The expiry stored for a code generated at issuedAt. */
  function ResetExpiry(issuedAt: int): (expiry: int)
    ensures expiry > issuedAt
  {
    issuedAt + ResetWindowSeconds
  }

  /** A code is accepted strictly before its expiry. */
  predicate Unexpired(now: int, expiry: int) {
    now < expiry
  }

  /** A code is usable exactly during the ten minutes after it was generated. */
  lemma ResetWindow(issuedAt: int, now: int)
    ensures Unexpired(now, ResetExpiry(issuedAt)) <==> now - issuedAt < 600
    ensures !Unexpired(issuedAt + 11 * 60, ResetExpiry(issuedAt))
    ensures !Unexpired(issuedAt + 10 * 60, ResetExpiry(issuedAt))
    ensures Unexpired(issuedAt + 10 * 60 - 1, ResetExpiry(issuedAt))
  {
  }
}
