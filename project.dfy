/**
 * The records the validators of web_scripts/valutils.py work on, the status
 * messages they report, and the external services they consult.
 */
module Project {
  import opened Wrappers

  /** A Kerberos user name, as `authutils.get_kerberos` returns it. */
  type Identity = string

  /** A point of contact; only the address is validated. */
  datatype Contact = Contact(name: string, email: string)

  datatype Role = Role(role: string, description: string)

  /**
   * The project info extracted from a form. Links and communication channels
   * are carried by the form too but no validator looks at them.
   */
  datatype ProjectInfo = ProjectInfo(
    name: string,
    description: string,
    contacts: seq<Contact>,
    roles: seq<Role>)

  /** One status message per kind of failure, carrying the value it quotes. */
  datatype Message =
    | AddNotAuthorized
    | NameEmpty
    | NameTaken(name: string)
    | DescriptionTooShort
    | NoContacts
    | NotMitEmail(email: string)
    | NoPlainMitContact
    | RoleIncomplete
    | EditNotAuthorized
    | ApproveNotAuthorized
    | InvalidApprovalAction(action: string)
    | CommentsTooShort
    | InvalidProjectId(text: string)
    | NoSuchProject(id: int)
    | DuplicateProjectId(count: nat, id: int)

  /** The `(is_ok, status_messages)` pair every validator returns. */
  datatype Verdict = Verdict(ok: bool, messages: seq<Message>)

  /** Every validator reports success exactly when it reports no message. */
  predicate Consistent(v: Verdict)
  {
    v.ok <==> v.messages == []
  }

  const Pass := Verdict(true, [])

  /** `is_ok &= b.ok; status_messages.extend(b.messages)` after the checks of `a`. */
  function Then(a: Verdict, b: Verdict): (r: Verdict)
    ensures Consistent(a) && Consistent(b) ==> Consistent(r)
  {
    Verdict(a.ok && b.ok, a.messages + b.messages)
  }

  /**
   * The services the validators call but that are not part of this model:
   * the signed-in user and the permission checks of `authutils`, the
   * lookups of `db`, the address classifiers of `strutils`, and Python's
   * `int()` applied to a form field.
   */
  datatype Env = Env(
    user: Identity,
    canAdd: Identity -> bool,
    canEdit: (Identity, string) -> bool,
    canApprove: Identity -> bool,
    projectIdOf: string -> Option<int>,
    projectNameOf: string -> Option<string>,
    projectRecordCount: int -> nat,
    isMitEmail: string -> bool,
    isPlainMitEmail: string -> bool,
    parseInt: string -> Option<int>)
}
