# Patient Helpdesk: session and rules model

A Dafny model of the logic inside the patient helpdesk application `app.py`.
The application is a Streamlit page. It lets patients sign up, log in, reset a
forgotten password with a six-digit e-mailed code, record policy inquiries and
denied-claim inquiries, and chat with an insurance assistant.

The model has two parts:

- **The session state machine** (`session.dfy`, class `Helpdesk.Session`).
  Its fields are those of `st.session_state`: `loggedIn`, `userEmail`,
  `page`, `chatHistory`, `resetCode`, `resetEmail` and `resetCodeExpiry`.
  `page` is a closed datatype of the eight page names. Each form submission
  and Logout is one method; the buttons that only change the page share
  `Navigate`. Each method requires the page on which its button is rendered. Every method keeps the invariant `Session.Valid()`, which says:
  - the session is logged in exactly when it is on the dashboard, policy
    inquiry or denied inquiry page;
  - a logged-in session has an e-mail, and that e-mail is registered;
  - the reset code, reset e-mail and expiry are set together;
  - a reset code has six ASCII digits, and its e-mail is registered;
  - the reset page is reached only after a code was issued.
- **The tables** (`storage.dfy`, class `Storage.Database`). Users are a map
  from e-mail to row. The two inquiry tables are append-only sequences.
- **The pure rules** (`form_rules.dfy`, `reset_codes.dfy`, `chatbot.dfy`):
  - the sign-up e-mail pattern and the mobile-number pattern, written as
    scans and proved equal to declarative definitions;
  - the recommended-policy rule and the denial-reason rule;
  - the attachment path, with a parser proved to invert it whenever neither
    id contains `_`;
  - the reset code, proved to be exactly the six-digit strings, and its
    ten-minute expiry;
  - the message list sent to the assistant.

The outside world comes in as parameters:

- the clock, as an integer count of seconds;
- the six `random.randint(0, 9)` draws;
- the bcrypt salt;
- whether the reset e-mail was sent;
- whether an attached document could be written to its path;
- the assistant's reply: no API key, a failed call, or the answer text.

Password hashing is symbolic. A `Digest` records the salt and the password it
commits to, and `CheckPassword` compares against it. This models a hash with
no collisions, not bcrypt itself.

The model follows the code as written, including these behaviours:

- **Login accepts any password.** `get_user` returns the user's row when the
  e-mail is found, whether or not the password check passed (app.py:60-64).
  So login succeeds for any registered e-mail with any password.
  `Storage.GetUserIgnoresPassword` and `Scenarios.SignUpThenLogIn` state this.
- **A successful reset leaves the challenge in place.** The reset code, e-mail
  and expiry stay in the session (app.py:243-245) until the next request
  replaces them. The code cannot be entered again, though: the reset page is reached
  only through a new request, which overwrites the code first.
- **The reset check tests that a reset e-mail is set.** It requires the
  stored reset e-mail to be non-empty (app.py:241), and the new password goes
  to that e-mail's row (app.py:243).
- **A duplicate sign-up still goes to the login page.** The page moves to
  login although the row was not saved (app.py:272-273).
- **The mobile check accepts one trailing newline.** Python's `$` matches
  before a final newline, so ten digits followed by a newline pass
  (app.py:322).
- **Attachment paths can collide.** When an id contains `_`, two different
  inquiries can get the same document path. `FormRules.DocumentPathsCanCollide`
  shows this.

## Model

| member | source | states |
|---|---|---|
| `HelpdeskTypes.PageNamed` | app.py:171-330 | a `page_state` tag maps to a page only if that page's own tag is the same string (it documents the tags; the session itself works on the `Page` datatype) |
| `FormRules.IsValidEmailCorrect` | app.py:265 | the e-mail scan accepts exactly the strings with a prefix `local@domain.c`, where `local` and `domain` are non-empty and have no `@`, and `c` is not `@` (what `re.match(r"[^@]+@[^@]+\.[^@]+", s)` accepts) |
| `FormRules.EmailExamples` | app.py:265 | `a@b.c` and `a@b.c@d` pass; `a@b` and `@b.c` fail |
| `FormRules.IsValidMobile` | app.py:322 | true exactly when the first ten characters are digits and the string ends after them or after one more newline |
| `FormRules.IsValidMobileCorrect` | app.py:322 | the check accepts exactly the strings that are ten digits followed by nothing or by one newline |
| `FormRules.MobileAccepts` | app.py:322 | `1234567890` passes |
| `FormRules.MobileRejects` | app.py:322 | `12345`, `12345678901` and `12345abcde` fail |
| `FormRules.RecommendedPolicy` | app.py:81 | the recommendation is one of the two policies; it is Basic Health Insurance exactly when age < 30 |
| `FormRules.RecommendationBoundary` | app.py:81 | age 29 gets Basic, age 30 gets Comprehensive |
| `FormRules.DenialReason` | app.py:343 | the reason is one of the two reasons; it is "Insufficient documentation" exactly when the patient id is shorter than 5 |
| `FormRules.DenialReasonBoundary` | app.py:343 | ids of length 3 and 4 get "Insufficient documentation"; length 5 gets "Policy expired" |
| `FormRules.DocumentPathRoundTrip` | app.py:346 | if neither id contains `_`, the path parses back to the patient id, policy id and file name |
| `FormRules.ParseDocumentPathSound` | app.py:346 | every path the parser accepts is the document path of the parts it returns, and those ids have no `_` |
| `FormRules.DocumentPathsCanCollide` | app.py:346-348 | two different (patient id, policy id) pairs can give the same path |
| `ResetCodes.GenerateResetCode` | app.py:96 | the code has six characters, each an ASCII digit |
| `ResetCodes.GenerateResetCodeInjective` | app.py:96 | the draws can be read back from the code, digit by digit |
| `ResetCodes.GenerateResetCodeSurjective` | app.py:96 | every six-digit string is the code of some draws |
| `ResetCodes.ResetWindow` | app.py:97 | a code is unexpired exactly when less than 600 seconds have passed since it was issued; it is expired at 10 and at 11 minutes |
| `Chatbot.ChatRequest` | app.py:122 | the request is the system prompt, then the transcript unchanged, then the user's message |
| `Chatbot.ReplyText` | app.py:118-133 | the reply is the service's answer when there is one; otherwise it is one of two non-empty texts, the no-key text exactly when no API key is set and the fixed apology when the call fails |
| `Chatbot.UtteranceSentTwice` | app.py:366-367 | the transcript already ends with the new user turn, so the request repeats the utterance in its last two entries |
| `Storage.HashPassword` | app.py:44 | the digest checks against its own password and against no other password |
| `Storage.CheckPassword` | app.py:62 | the check passes exactly for digests made from the given password, whatever their salt |
| `Storage.Database.SaveUser` | app.py:40-52 | a new e-mail adds exactly one row, with the hashed password; a registered e-mail leaves the users unchanged; the inquiry tables are unchanged |
| `Storage.Database.GetUser` | app.py:54-64 | a row comes back exactly when the e-mail is registered, and it is that e-mail's row |
| `Storage.GetUserIgnoresPassword` | app.py:60-64 | the result is the same with the right password, a wrong one, or none |
| `Storage.Database.UpdatePassword` | app.py:66-72 | only the password hash of that e-mail's row changes; an unknown e-mail changes nothing |
| `Storage.Database.SavePolicyInquiry` | app.py:74-81 | exactly one row with the given fields and time is appended; the recommendation follows the age rule |
| `Storage.Database.SaveDeniedInquiry` | app.py:83-92 | exactly one row with the given fields, reason, path and time is appended |
| `Helpdesk.NavTargets` | app.py:173-306 | navigation never crosses between logged-out and logged-in pages; no button leads to the reset page; a logged-in page leads to the three member pages |
| `Helpdesk.SignUpFieldsPresent` | app.py:269 | `all([name, email, dob, age, password])` holds exactly when name, e-mail and password are non-empty and age is not 0; the date never fails it |
| `Helpdesk.PolicyFieldsPresent` | app.py:324 | `all([...])` on the policy form holds exactly when name, mobile number, place and policy details are non-empty and age is not 0; gender and date never fail it |
| `Helpdesk.DeniedFieldsPresent` | app.py:342 | `all([...])` on the denied form holds exactly when the four text fields are non-empty |
| `Helpdesk.Session.constructor` | app.py:136-149 | a new session is logged out on the home page, with an empty chat and no reset challenge, and it satisfies the invariant |
| `Helpdesk.Session.Navigate` | app.py:175-306 | a navigation button changes only the page and keeps the invariant |
| `Helpdesk.Session.LogIn` | app.py:193-201 | the dashboard is entered, logged in as that e-mail, exactly when the e-mail is registered; otherwise nothing changes |
| `Helpdesk.Session.LogOut` | app.py:289-294 | logs out, clears the e-mail and the chat, returns home, and leaves the reset challenge as it was |
| `Helpdesk.Session.SubmitSignUp` | app.py:264-274 | the checks run in order: e-mail pattern, matching passwords, required fields (age 0 fails). A new e-mail adds one row with the hashed password; a duplicate leaves the users unchanged. The page moves to login in both cases |
| `Helpdesk.Session.RequestReset` | app.py:216-228 | an unknown e-mail changes nothing. A known one stores the generated code, the e-mail and now + 600 whether or not sending worked; only a successful send moves to the reset page |
| `Helpdesk.Session.SubmitReset` | app.py:240-249 | the password of the reset e-mail changes, and the page moves to login, exactly when the code matches, the e-mail is set, now is before the expiry and the new passwords match; otherwise nothing changes; the challenge is kept |
| `Helpdesk.Session.SubmitPolicyInquiry` | app.py:321-327 | the mobile check comes first, then the required fields (age 0 fails); on success exactly one row is appended and the age rule's policy is reported |
| `Helpdesk.Session.SubmitDeniedInquiry` | app.py:341-351 | with all four text fields present, an attached file is written first; if that write fails nothing is appended. Otherwise exactly one row is appended, with the id-length reason and a path only when a file is attached. Missing fields append nothing |
| `Helpdesk.Session.SendChat` | app.py:364-371 | a non-empty message appends the user turn and then the assistant turn (the answer, the no-key text or the apology from grok_response); the request is sent only when an API key is set; an empty message changes nothing |
| `Scenarios.SignUpThenLogIn` | app.py:193-199 | after signing up, logging in with that e-mail reaches the dashboard whatever password is typed |
| `Scenarios.ResetAfterDelay` | app.py:216-249 | a delivered code entered with matching passwords changes the password exactly when it is entered less than 600 seconds after it was issued |

## Left out

- Page rendering, CSS, widget layout and `st.rerun()` are presentation. A transition ends where the code calls `st.rerun()`.
- The SQLite connection and schema setup are not modelled. Tables are a map and two sequences.
- Row ids (`AUTOINCREMENT`) are not modelled.
- The `str()` text of dates and timestamps is not modelled. Dates are kept as values and times as integer seconds, so sub-second precision is lost.
- bcrypt is replaced by a symbolic, collision-free digest. `gensalt()` becomes a salt parameter.
- Storage.HashPassword: its digest checks against no password but its own, which is stronger than bcrypt. bcrypt only hashes the first 72 bytes, so two passwords that share those bytes check against each other's hash. Login ignores the check anyway.
- SMTP delivery is not modelled, nor the text of the reset e-mail. The send result is a boolean parameter.
- The OpenAI call is not modelled: the model name, `max_tokens=150`, `temperature=0.7` and the `strip()` of the answer. The reply is a parameter, and its text is taken as already stripped.
- `random.randint` and `datetime.now()` become parameters.
- Writing the attached file to disk is not modelled, only whether it succeeded (a parameter). Only its path is computed.
- Database errors other than the UNIQUE violation on sign-up are not modelled.
- The regular-expression engine is not modelled. The two patterns are written by hand as scans.
- FormRules.IsValidMobile: treats `\d` as the ASCII digits `0`-`9`. For a text pattern, Python's `\d` also matches other Unicode decimal digits.
- The age inputs' widget bounds (0 to 150) are the subset type `Age`. The gender select box is the datatype `Gender`. A date input always gives a date.
