# Project directory validators, in Dafny

This project models the form validation of a project-directory web application.
Users submit projects, each with a name, a description, contacts and roles.
An approver approves or rejects each submission, and the handlers accept a submission, an edit or an approval only when the validators pass.

What is modelled:

- **`web_scripts/valutils.py`**: every `validate_*` function. Each one returns the pair `(is_ok, status_messages)`, modelled as `Project.Verdict`.
- **`web_scripts/strutils.py`**: the two string helpers `obfuscate_email` and `split_comma_sep`.

The services the validators call are parameters of every check, gathered in the datatype `Project.Env`:

- the signed-in user;
- the permission checks of `authutils`;
- the lookups of `db`;
- the address classifiers `strutils.is_mit_email` and `strutils.is_plain_mit_email`;
- Python's `int()`.

The model is split into these files:

- `pystr.dfy` (module `PyStr`) holds the Python string operations the source relies on: `str.split()`, `str.strip()`, `str.split(sep)`, `str.replace` and `str.lower`, together with a character count used to state `obfuscate_email`'s length. Whitespace is Python's own `str.isspace` set. Each operation is tied to an independent reference definition by lemmas, for example a character-by-character word count and the split/join round trips.
- `project.dfy` (module `Project`) holds the project record, the status messages as a datatype, `Verdict`, and `Then`, which stands for one `is_ok &= ...; status_messages.extend(...)` step.
- `valutils.dfy` (module `ValUtils`) holds the checks:
  - **Single-expression checks** are functions.
  - **The two loops** (contact addresses, and roles with its early `break`) are methods with loop invariants.
  - **The composite checks** are methods too. They update `is_ok` and `status_messages` step by step, as the source does.
  - **Specification functions:** each method is proved to return the verdict of a specification function. Each specification function states in its contract the business rule its verdict decides, for example `ProjectInfoValid` or `ContactsValid`.
- `valutils_properties.dfy` (module `ValUtilsProperties`) holds lemmas that relate several checks, the concrete submission scenario and the approval finding.
- `strutils.dfy` (module `StrUtils`) holds `ObfuscateEmail` and `SplitCommaSep`.

Every validator reports success exactly when it reports no message; `Project.Consistent` states this and every verdict function ensures it.

`validate_approve_project` calls `validate_approval_action` at web_scripts/valutils.py:500, but `action_ok` and `action_msgs` are never read afterwards. The model follows the code as written and adds a corrected variant that uses the result; see "## Findings".

## Model

| member | source | states |
|---|---|---|
| Project.Then | web_scripts/valutils.py:266-267 | accumulating two verdicts keeps "ok iff no messages" |
| ValUtils.ValidateAddPermission | web_scripts/valutils.py:16-22 | passes iff the user may add projects; otherwise exactly the not-authorized message |
| ValUtils.ValidateProjectNameText | web_scripts/valutils.py:40-45 | passes iff the name is non-empty; otherwise exactly the empty-name message |
| ValUtils.ValidateProjectNameAvailable | web_scripts/valutils.py:63-67 | passes iff the name's looked-up id is absent or 0; an unknown name passes; otherwise exactly the name-taken message |
| ValUtils.ValidateProjectDescription | web_scripts/valutils.py:115-122 | passes iff `description.split()` has at least three words, which is the same as at least three word starts; otherwise exactly one message |
| ValUtils.ValidateProjectContactsNonempty | web_scripts/valutils.py:140-145 | passes iff there is a contact; otherwise exactly the no-contacts message |
| ValUtils.ValidateEditPermission | web_scripts/valutils.py:339-344 | passes iff the user may edit that project; otherwise exactly one message |
| ValUtils.ValidateApprovalPermission | web_scripts/valutils.py:395-401 | passes iff the user may approve; otherwise exactly one message |
| ValUtils.ValidateApprovalAction | web_scripts/valutils.py:419-426 | passes iff the action is "approved" or "rejected"; otherwise one message naming the action |
| ValUtils.ValidateApprovalComments | web_scripts/valutils.py:446-458 | any non-rejecting action passes; a rejection passes iff the comments have three words; otherwise one message |
| ValUtils.ValidateProjectIdIsInt | web_scripts/valutils.py:526-531 | passes iff `int()` accepts the id; otherwise one message naming the text |
| ValUtils.ValidateProjectIdExists | web_scripts/valutils.py:549-565 | for an id that parses: passes iff exactly one record has it; no record gives the no-such-project message; more than one gives the count message |
| ValUtils.NotMitMessagesComplete | web_scripts/valutils.py:167-172 | the per-contact messages are exactly the non-MIT addresses, every one of them, and there are none iff all addresses are MIT ones |
| ValUtils.NotMitMessagesAppend | web_scripts/valutils.py:167-172 | the messages of two contact lists in a row are the messages of the first followed by those of the second |
| ValUtils.ContactAddressesVerdict | web_scripts/valutils.py:163-185 | passes iff every address is MIT and some address is plain MIT; at most one message per contact plus one; the plain-MIT message appears iff no plain MIT address exists; only the last message can be other than a non-MIT one; the messages are the non-MIT ones in list order, then the plain-MIT one if needed |
| ValUtils.ValidateProjectContactAddresses | web_scripts/valutils.py:163-185 | the loop returns the contact-address verdict |
| ValUtils.ContactsVerdict | web_scripts/valutils.py:203-217 | passes iff contacts are non-empty, all MIT and some plain MIT; an empty list gives exactly `(False, [no contacts])`; addresses are examined only for a non-empty list |
| ValUtils.ValidateProjectContacts | web_scripts/valutils.py:203-217 | returns the contacts verdict |
| ValUtils.RolesVerdict | web_scripts/valutils.py:235-242 | passes iff every role has a name and a description; otherwise exactly one message |
| ValUtils.ValidateProjectRoles | web_scripts/valutils.py:235-242 | the loop, which stops at the first incomplete role, returns the roles verdict |
| ValUtils.ProjectNameVerdict | web_scripts/valutils.py:85-97 | passes iff the name is non-empty and either keeps the previous name up to case or is not taken; an empty name fails with its message first; keeping the name skips the availability check; the messages are the empty-name one if the name is empty, then the name-taken one if the name is not kept and is taken; at most two messages |
| ValUtils.ValidateProjectName | web_scripts/valutils.py:85-97 | returns the name verdict |
| ValUtils.ProjectInfoVerdict | web_scripts/valutils.py:260-288 | passes iff name, description, contacts and roles all satisfy their rules; the messages are theirs in that order |
| ValUtils.ValidateProjectInfo | web_scripts/valutils.py:260-288 | returns the project-info verdict |
| ValUtils.AddProjectVerdict | web_scripts/valutils.py:310-321 | passes iff the user may add and the info is valid as a new project; the permission message, if any, precedes the info messages |
| ValUtils.ValidateAddProject | web_scripts/valutils.py:310-321 | returns the add verdict |
| ValUtils.EditProjectVerdict | web_scripts/valutils.py:368-382 | passes iff the user may edit this project and the info is valid, with the project's current name allowed; the permission message, if any, precedes the info messages |
| ValUtils.ValidateEditProject | web_scripts/valutils.py:368-382 | returns the edit verdict |
| ValUtils.ApproveProjectVerdict | web_scripts/valutils.py:486-508 | as written: passes iff the user may approve, the info is valid and the comments suit the action; the action itself is not required to be valid; the messages are permission, info, comments, in that order, with none about the action |
| ValUtils.ValidateApproveProject | web_scripts/valutils.py:486-508 | returns the as-written approval verdict |
| ValUtils.CheckedApproveProjectVerdict | web_scripts/valutils.py:500-506 | corrected: additionally requires the action to be "approved" or "rejected"; its message comes between the info and the comments messages |
| ValUtils.ValidateApproveProjectChecked | web_scripts/valutils.py:500-506 | returns the corrected approval verdict |
| ValUtils.ProjectIdVerdict | web_scripts/valutils.py:583-595 | an id that does not parse fails with exactly its one message and is not looked up; a parsed id gets the existence verdict; passes iff it parses and exactly one record has it |
| ValUtils.ValidateProjectId | web_scripts/valutils.py:583-595 | returns the project-id verdict |
| ValUtilsProperties.EmptyNameFailsFirst | web_scripts/valutils.py:88-90 | an empty name sinks the project info, and its message comes first |
| ValUtilsProperties.KeptNameIgnoresOtherProjects | web_scripts/valutils.py:92-95 | when the name is kept up to case, the database does not affect the name verdict |
| ValUtilsProperties.KeepsNameUpToCase | web_scripts/valutils.py:92 | "FOO" keeps the previous name "Foo" |
| ValUtilsProperties.ZeroIdCountsAsAvailable | web_scripts/valutils.py:64-67 | a name whose looked-up id is 0 is reported available |
| ValUtilsProperties.EditWithoutPermissionFailsFirst | web_scripts/valutils.py:371-373 | a user who may not edit fails with the permission message first, whatever the info |
| ValUtilsProperties.UnknownActionActsAsApproved | web_scripts/valutils.py:500-506 | as written, any action other than "approved" or "rejected" gives exactly the verdict of "approved" |
| ValUtilsProperties.ApproveAcceptsMisspelledAction | web_scripts/valutils.py:500-506 | as written, the action "approve" on a valid project passes |
| ValUtilsProperties.CheckedRejectsUnknownAction | web_scripts/valutils.py:500-506 | corrected: an unknown action fails and its message is reported |
| ValUtilsProperties.CheckedAgreesOnValidActions | web_scripts/valutils.py:486-508 | for "approved" and "rejected" the corrected verdict equals the as-written one |
| ValUtilsProperties.FourWordDescription | web_scripts/valutils.py:115 | "A short test project" has at least three words |
| ValUtilsProperties.SubmissionPasses | web_scripts/valutils.py:310-321 | a permitted user adding "Foo" with a four-word description, one plain MIT contact and one complete role passes |
| ValUtilsProperties.RejectingWithoutCommentFails | web_scripts/valutils.py:446-458 | rejecting that project with an empty comment fails with the comment message alone |
| StrUtils.ObfuscateEmail | web_scripts/strutils.py:14 | the result contains no '@' and no '.'; its length grows by 5 per '@' and 6 per '.'; an address with neither is unchanged |
| StrUtils.ObfuscateEmailAppend | web_scripts/strutils.py:14 | obfuscating a concatenation is concatenating the obfuscated parts |
| StrUtils.ObfuscateEmailChar | web_scripts/strutils.py:14 | '@' becomes " [at] ", '.' becomes " [dot] ", any other character is kept |
| StrUtils.SplitCommaSep | web_scripts/strutils.py:27-30 | one element more than there are commas; element k is the k-th comma-separated piece of the input with its surrounding whitespace removed; no element contains a comma or starts or ends with whitespace |
| StrUtils.SplitCommaSepTrims | web_scripts/strutils.py:30 | " a , b " gives "a" and "b" |
| StrUtils.SplitCommaSepJoin | web_scripts/strutils.py:30 | comma-free, trimmed fields joined with ',' split back into the same fields |
| StrUtils.SplitCommaSepEmpty | web_scripts/strutils.py:30 | the empty string gives one empty element |
| PyStr.WordCount | web_scripts/valutils.py:115 | the number of words `str.split()` returns equals the number of word starts, counted character by character |
| PyStr.SplitWhitespaceJoin | web_scripts/valutils.py:115 | splitting non-empty, whitespace-free words joined by spaces gives the words back |
| PyStr.SplitWhitespace | web_scripts/valutils.py:115 | `str.split()`: every word it returns is non-empty and contains no whitespace |
| PyStr.SplitWhitespaceWord | web_scripts/valutils.py:115 | a whitespace-free string splits into itself as the one word, and the empty string into no words |
| PyStr.SplitWhitespaceAtSpace | web_scripts/valutils.py:115 | any whitespace character separates: splitting `a + [c] + b` gives the words of `a` followed by the words of `b`; with `SplitWhitespaceWord` this fixes the result of `split()` on every input |
| PyStr.Strip | web_scripts/strutils.py:30 | the result is a slice of the input outside which there is only whitespace, and it neither starts nor ends with whitespace |
| PyStr.LStripSuffix | web_scripts/strutils.py:30 | left strip keeps a suffix and drops only whitespace |
| PyStr.RStripPrefix | web_scripts/strutils.py:30 | right strip keeps a prefix and drops only whitespace |
| PyStr.StripTrimmed | web_scripts/strutils.py:30 | stripping a trimmed string changes nothing |
| PyStr.Split | web_scripts/strutils.py:30 | `s.split(sep)` has one piece more than `sep` occurs, and no piece contains `sep` |
| PyStr.JoinSplit | web_scripts/strutils.py:30 | joining the pieces with `sep` gives the input back |
| PyStr.SplitJoin | web_scripts/strutils.py:30 | splitting a join of sep-free pieces gives the pieces back |
| PyStr.Replace | web_scripts/strutils.py:14 | the length grows by `len(r) - 1` per occurrence replaced |
| PyStr.ReplaceAppend | web_scripts/strutils.py:14 | replacing in a concatenation is the concatenation of the replaced parts, so every character is rewritten in place |
| PyStr.ReplaceSingle | web_scripts/strutils.py:14 | an occurrence of the character becomes exactly the replacement; any other character stays as it is |
| PyStr.ReplaceChars | web_scripts/strutils.py:14 | every character of the result is a kept character of the input or comes from the replacement |
| PyStr.ReplaceKeepsCount | web_scripts/strutils.py:14 | replacing one character leaves the count of another, absent from the replacement, unchanged |
| PyStr.ReplaceAbsent | web_scripts/strutils.py:14 | replacing an absent character changes nothing |
| PyStr.Lower | web_scripts/valutils.py:92 | same length, no upper-case ASCII letter in the result, and each character is the input's character or the same letter in lower case |
| PyStr.LowerEqual | web_scripts/valutils.py:92 | two names compare equal after lower-casing iff they have the same length and agree character by character up to the case of ASCII letters |
| PyStr.LowerIdempotent | web_scripts/valutils.py:92 | lower-casing twice is lower-casing once |

## Left out

- `web_scripts/mail.py`, the mail helper, is not part of this model.
- `web_scripts/performeditproject.py` and the other CGI handlers are not part of this model. Besides calling the validators, they parse the form, call the storage step `update_project` (a stub in the shown handler) inside a `try`/`except` that turns any exception into a status message, and render the page.
- The string operations are those of Python 3 `str`: `split()` and `strip()` use the full Unicode `str.isspace` set. Under Python 2 byte strings only six ASCII whitespace characters would count; the model assumes Python 3.
- `authutils`, `db`, `strutils.is_mit_email` and `strutils.is_plain_mit_email` are parameters: fields of `Project.Env`. Their internals, the database and Kerberos authentication are not modelled.
- Python's `int()` is the parameter `Env.parseInt`. Its grammar is not modelled: signs, surrounding whitespace and underscores are whatever the oracle says.
- `Env.user` stands for the signed-in user, whom the source reads from the ambient CGI environment.
- `PyStr.Lower`: folds ASCII letters only. Python's `str.lower` also maps non-ASCII letters, so two non-ASCII names that differ only in case count as different names here.
- The message text is not modelled; each message is a constructor of `Project.Message` carrying the values the text interpolates.
- The exceptions the source can raise are not modelled, for example a form dictionary missing a key, or `int(None)` for a missing id. Fields are typed, and the project id is a string.
- `ValUtils.ValidateProjectIdExists`: requires that the id parses. The source converts it with `int()` again and would raise otherwise, and its one caller checks first.
- `html_listify` and the unvalidated links and communication-channel fields are not modelled; the validators never look at them.

## Findings

| source | as written | input that shows it | evidently intended | confidence | as-written member | corrected member |
|---|---|---|---|---|---|---|
| web_scripts/valutils.py:500-506 | `validate_approve_project` calls `validate_approval_action` but never folds `action_ok` or its messages into the result | an approver sends the action "approve" (or an empty action) for a valid project with empty comments: the check passes with no message | the approval must fail, with the invalid-action message, unless the action is "approved" or "rejected" | medium, not executed | ValUtilsProperties.ApproveAcceptsMisspelledAction | ValUtilsProperties.CheckedRejectsUnknownAction |

The corrected definition is `ValUtils.CheckedApproveProjectVerdict`, computed by `ValUtils.ValidateApproveProjectChecked`. `ValUtilsProperties.CheckedAgreesOnValidActions` shows that it changes nothing for "approved" and "rejected".

The availability check decides by the truthiness of the looked-up id, so an id of 0 would count as available (`ValUtilsProperties.ZeroIdCountsAsAvailable`). Stored ids are assigned by the database and are presumably never 0, so this is recorded as behaviour, not as a defect.
