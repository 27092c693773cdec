/**
 * The validators of web_scripts/valutils.py. Each returns a `Verdict`, the
 * pair `(is_ok, status_messages)`, and every one of them reports success
 * exactly when it reports no message (`Consistent`).
 *
 * The single-expression checks are functions. The checks that loop over a
 * list, and the composite checks that accumulate `is_ok &= ...` and
 * `status_messages.extend(...)` step by step, are methods, each proved to
 * return the verdict of a specification function; the specification
 * functions state what the verdict means in terms of the business rules
 * below.
 */
module ValUtils {
  import opened Wrappers
  import opened PyStr
  import opened Project

  // ---------------------------------------------------------------------
  // The business rules, stated without reference to the validators.

  /** `db.get_project_id(name)` finds a project and its id is truthy (not 0). */
  predicate Taken(env: Env, name: string)
  {
    env.projectIdOf(name).Some? && env.projectIdOf(name).value != 0
  }

  /** The project keeps its previous name, up to case. */
  predicate KeepsName(name: string, previous: Option<string>)
  {
    previous.Some? && Lower(name) == Lower(previous.value)
  }

  predicate NameValid(env: Env, name: string, previous: Option<string>)
  {
    name != [] && (KeepsName(name, previous) || !Taken(env, name))
  }

  /** At least three words, counted character by character. */
  predicate HasThreeWords(s: string)
  {
    WordStarts(s, true) >= 3
  }

  predicate AllMit(env: Env, contacts: seq<Contact>)
  {
    forall i :: 0 <= i < |contacts| ==> env.isMitEmail(contacts[i].email)
  }

  predicate SomePlainMit(env: Env, contacts: seq<Contact>)
  {
    exists i :: 0 <= i < |contacts| && env.isPlainMitEmail(contacts[i].email)
  }

  predicate ContactsValid(env: Env, contacts: seq<Contact>)
  {
    contacts != [] && AllMit(env, contacts) && SomePlainMit(env, contacts)
  }

  predicate RoleComplete(r: Role)
  {
    r.role != [] && r.description != []
  }

  predicate AllRolesComplete(roles: seq<Role>)
  {
    forall i :: 0 <= i < |roles| ==> RoleComplete(roles[i])
  }

  predicate ProjectInfoValid(env: Env, info: ProjectInfo, previous: Option<string>)
  {
    && NameValid(env, info.name, previous)
    && HasThreeWords(info.description)
    && ContactsValid(env, info.contacts)
    && AllRolesComplete(info.roles)
  }

  predicate IsApprovalAction(action: string)
  {
    action == "approved" || action == "rejected"
  }

  /** Only a rejection needs comments, and then at least three words of them. */
  predicate CommentsValid(action: string, comments: string)
  {
    action == "rejected" ==> HasThreeWords(comments)
  }

  // ---------------------------------------------------------------------
  // Single-expression checks.

  /** `validate_add_permission` */
  function ValidateAddPermission(env: Env): (v: Verdict)
    ensures Consistent(v)
    ensures v.ok <==> env.canAdd(env.user)
    ensures !v.ok ==> v.messages == [AddNotAuthorized]
  {
    if env.canAdd(env.user) then Pass else Verdict(false, [AddNotAuthorized])
  }

  /** `validate_project_name_text` */
  function ValidateProjectNameText(name: string): (v: Verdict)
    ensures Consistent(v)
    ensures v.ok <==> name != []
    ensures !v.ok ==> v.messages == [NameEmpty]
  {
    if |name| >= 1 then Pass else Verdict(false, [NameEmpty])
  }

  /** `validate_project_name_available`: decided by the truthiness of the looked-up id. */
  function ValidateProjectNameAvailable(env: Env, name: string): (v: Verdict)
    ensures Consistent(v)
    ensures v.ok <==> !Taken(env, name)
    ensures env.projectIdOf(name) == None ==> v.ok
    ensures !v.ok ==> v.messages == [NameTaken(name)]
  {
    match env.projectIdOf(name)
    case Some(id) => if id != 0 then Verdict(false, [NameTaken(name)]) else Pass
    case None => Pass
  }

  /** `validate_project_description`: at least three words in `description.split()`. */
  function ValidateProjectDescription(description: string): (v: Verdict)
    ensures Consistent(v)
    ensures v.ok <==> |SplitWhitespace(description)| >= 3
    ensures v.ok <==> HasThreeWords(description)
    ensures !v.ok ==> v.messages == [DescriptionTooShort]
  {
    WordCount(description);
    if |SplitWhitespace(description)| >= 3 then Pass else Verdict(false, [DescriptionTooShort])
  }

  /** `validate_project_contacts_nonempty` */
  function ValidateProjectContactsNonempty(contacts: seq<Contact>): (v: Verdict)
    ensures Consistent(v)
    ensures v.ok <==> contacts != []
    ensures !v.ok ==> v.messages == [NoContacts]
  {
    if |contacts| >= 1 then Pass else Verdict(false, [NoContacts])
  }

  /** `validate_edit_permission` */
  function ValidateEditPermission(env: Env, projectId: string): (v: Verdict)
    ensures Consistent(v)
    ensures v.ok <==> env.canEdit(env.user, projectId)
    ensures !v.ok ==> v.messages == [EditNotAuthorized]
  {
    if env.canEdit(env.user, projectId) then Pass else Verdict(false, [EditNotAuthorized])
  }

  /** `validate_approval_permission` */
  function ValidateApprovalPermission(env: Env): (v: Verdict)
    ensures Consistent(v)
    ensures v.ok <==> env.canApprove(env.user)
    ensures !v.ok ==> v.messages == [ApproveNotAuthorized]
  {
    if env.canApprove(env.user) then Pass else Verdict(false, [ApproveNotAuthorized])
  }

  /** `validate_approval_action` */
  function ValidateApprovalAction(action: string): (v: Verdict)
    ensures Consistent(v)
    ensures v.ok <==> IsApprovalAction(action)
    ensures !v.ok ==> v.messages == [InvalidApprovalAction(action)]
  {
    if action == "approved" || action == "rejected" then Pass else Verdict(false, [InvalidApprovalAction(action)])
  }

  /** `validate_approval_comments` */
  function ValidateApprovalComments(action: string, comments: string): (v: Verdict)
    ensures Consistent(v)
    ensures v.ok <==> CommentsValid(action, comments)
    ensures action != "rejected" ==> v.ok
    ensures !v.ok ==> v.messages == [CommentsTooShort]
  {
    var ok := if action == "rejected" then |SplitWhitespace(comments)| >= 3 else true;
    WordCount(comments);
    if ok then Pass else Verdict(false, [CommentsTooShort])
  }

  /** `validate_project_id_is_int`: whether `int(project_id)` succeeds. */
  function ValidateProjectIdIsInt(env: Env, projectId: string): (v: Verdict)
    ensures Consistent(v)
    ensures v.ok <==> env.parseInt(projectId).Some?
    ensures !v.ok ==> v.messages == [InvalidProjectId(projectId)]
  {
    if env.parseInt(projectId).Some? then Pass else Verdict(false, [InvalidProjectId(projectId)])
  }

  /**
   * `validate_project_id_exists`: exactly one record must carry the id. The
   * source converts the id with `int()` again and raises if that fails, so
   * callers pass only ids that parse.
   */
  function ValidateProjectIdExists(env: Env, projectId: string): (v: Verdict)
    requires env.parseInt(projectId).Some?
    ensures Consistent(v)
    ensures v.ok <==> env.projectRecordCount(env.parseInt(projectId).value) == 1
    ensures var id := env.parseInt(projectId).value;
            && (env.projectRecordCount(id) == 0 ==> v.messages == [NoSuchProject(id)])
            && (env.projectRecordCount(id) > 1 ==> v.messages == [DuplicateProjectId(env.projectRecordCount(id), id)])
  {
    var id := env.parseInt(projectId).value;
    var n := env.projectRecordCount(id);
    if n == 0 then Verdict(false, [NoSuchProject(id)])
    else if n == 1 then Pass
    else Verdict(false, [DuplicateProjectId(n, id)])
  }

  // ---------------------------------------------------------------------
  // Contact addresses.

  /** One `NotMitEmail` message per contact whose address is not an MIT one, in list order. */
  function NotMitMessages(env: Env, contacts: seq<Contact>): (msgs: seq<Message>)
    ensures |msgs| <= |contacts|
  {
    if contacts == [] then []
    else
      var head := if env.isMitEmail(contacts[0].email) then [] else [NotMitEmail(contacts[0].email)];
      head + NotMitMessages(env, contacts[1..])
  }

  /**
   * Every such message names a non-MIT address, there is none exactly when
   * every address is an MIT one, and every non-MIT address has its message.
   */
  lemma {:induction false} NotMitMessagesComplete(env: Env, contacts: seq<Contact>)
    ensures forall k :: 0 <= k < |NotMitMessages(env, contacts)| ==>
              NotMitMessages(env, contacts)[k].NotMitEmail? && !env.isMitEmail(NotMitMessages(env, contacts)[k].email)
    ensures NotMitMessages(env, contacts) == [] <==> AllMit(env, contacts)
    ensures forall i :: 0 <= i < |contacts| && !env.isMitEmail(contacts[i].email) ==>
              NotMitEmail(contacts[i].email) in NotMitMessages(env, contacts)
  {
    if contacts != [] {
      NotMitMessagesComplete(env, contacts[1..]);
      assert forall i :: 1 <= i < |contacts| ==> contacts[i] == contacts[1..][i - 1];
      var msgs := NotMitMessages(env, contacts);
      var rest := NotMitMessages(env, contacts[1..]);
      var head := |msgs| - |rest|;
      assert forall k :: head <= k < |msgs| ==> msgs[k] == rest[k - head];
    }
  }

  lemma {:induction false} NotMitMessagesAppend(env: Env, a: seq<Contact>, b: seq<Contact>)
    ensures NotMitMessages(env, a + b) == NotMitMessages(env, a) + NotMitMessages(env, b)
  {
    if a == [] {
      assert a + b == b;
    } else {
      assert (a + b)[0] == a[0];
      assert (a + b)[1..] == a[1..] + b;
      NotMitMessagesAppend(env, a[1..], b);
    }
  }

  /**
   * What `validate_project_contact_addresses` reports: a message for every
   * non-MIT address, in list order, then one more if no contact has a plain
   * MIT address. It passes iff every address is an MIT one and some address
   * is a plain MIT one.
   */
  function ContactAddressesVerdict(env: Env, contacts: seq<Contact>): (v: Verdict)
    ensures Consistent(v)
    ensures v.ok <==> AllMit(env, contacts) && SomePlainMit(env, contacts)
    ensures |v.messages| <= |contacts| + 1
    ensures NoPlainMitContact in v.messages <==> !SomePlainMit(env, contacts)
    ensures forall k :: 0 <= k < |v.messages| - 1 ==> v.messages[k].NotMitEmail?
    ensures v.messages == NotMitMessages(env, contacts) + (if SomePlainMit(env, contacts) then [] else [NoPlainMitContact])
  {
    var missingPlain := if SomePlainMit(env, contacts) then [] else [NoPlainMitContact];
    var msgs := NotMitMessages(env, contacts);
    NotMitMessagesComplete(env, contacts);
    Verdict(AllMit(env, contacts) && SomePlainMit(env, contacts), msgs + missingPlain)
  }

  /** `validate_project_contact_addresses` */
  method ValidateProjectContactAddresses(env: Env, contacts: seq<Contact>) returns (ok: bool, messages: seq<Message>)
    ensures Verdict(ok, messages) == ContactAddressesVerdict(env, contacts)
  {
    ok := true;
    messages := [];
    var containsPlainMit := false;
    for i := 0 to |contacts|
      invariant ok <==> forall j :: 0 <= j < i ==> env.isMitEmail(contacts[j].email)
      invariant containsPlainMit <==> exists j :: 0 <= j < i && env.isPlainMitEmail(contacts[j].email)
      invariant messages == NotMitMessages(env, contacts[..i])
    {
      var email := contacts[i].email;
      assert contacts[..i + 1] == contacts[..i] + [contacts[i]];
      NotMitMessagesAppend(env, contacts[..i], [contacts[i]]);
      assert [contacts[i]][1..] == [];
      assert NotMitMessages(env, [contacts[i]]) == if env.isMitEmail(email) then [] else [NotMitEmail(email)];
      assert (forall j :: 0 <= j < i + 1 ==> env.isMitEmail(contacts[j].email))
        <==> (forall j :: 0 <= j < i ==> env.isMitEmail(contacts[j].email)) && env.isMitEmail(email);
      if !env.isMitEmail(email) {
        ok := false;
        messages := messages + [NotMitEmail(email)];
      }
      if env.isPlainMitEmail(email) {
        containsPlainMit := true;
      }
    }
    assert contacts[..|contacts|] == contacts;
    if !containsPlainMit {
      ok := false;
      messages := messages + [NoPlainMitContact];
    }
  }

  // ---------------------------------------------------------------------
  // Contacts.

  /**
   * What `validate_project_contacts` reports: an empty list fails with the
   * single "at least one contact" message and its addresses are not
   * examined; otherwise it reports what the address check reports.
   */
  function ContactsVerdict(env: Env, contacts: seq<Contact>): (v: Verdict)
    ensures Consistent(v)
    ensures v.ok <==> ContactsValid(env, contacts)
    ensures contacts == [] ==> v == Verdict(false, [NoContacts])
    ensures contacts != [] ==> v == ContactAddressesVerdict(env, contacts)
  {
    var nonempty := ValidateProjectContactsNonempty(contacts);
    Then(nonempty, if nonempty.ok then ContactAddressesVerdict(env, contacts) else Pass)
  }

  /** `validate_project_contacts` */
  method ValidateProjectContacts(env: Env, contacts: seq<Contact>) returns (ok: bool, messages: seq<Message>)
    ensures Verdict(ok, messages) == ContactsVerdict(env, contacts)
  {
    ok := true;
    messages := [];
    var nonempty := ValidateProjectContactsNonempty(contacts);
    ok := ok && nonempty.ok;
    messages := messages + nonempty.messages;
    assert messages == nonempty.messages;
    if nonempty.ok {
      var addressesOk, addressesMessages := ValidateProjectContactAddresses(env, contacts);
      ok := ok && addressesOk;
      messages := messages + addressesMessages;
    }
  }

  // ---------------------------------------------------------------------
  // Roles.

  /** What `validate_project_roles` reports: one message if any role lacks a name or a description. */
  function RolesVerdict(roles: seq<Role>): (v: Verdict)
    ensures Consistent(v)
    ensures v.ok <==> AllRolesComplete(roles)
    ensures !v.ok ==> v.messages == [RoleIncomplete]
  {
    if AllRolesComplete(roles) then Pass else Verdict(false, [RoleIncomplete])
  }

  /** `validate_project_roles`: stops at the first incomplete role. */
  method ValidateProjectRoles(roles: seq<Role>) returns (ok: bool, messages: seq<Message>)
    ensures Verdict(ok, messages) == RolesVerdict(roles)
  {
    ok := true;
    messages := [];
    var i := 0;
    while i < |roles|
      invariant 0 <= i <= |roles|
      invariant ok && messages == []
      invariant forall j :: 0 <= j < i ==> RoleComplete(roles[j])
    {
      if |roles[i].role| == 0 || |roles[i].description| == 0 {
        ok := false;
        messages := [RoleIncomplete];
        break;
      }
      i := i + 1;
    }
  }

  // ---------------------------------------------------------------------
  // Project name.

  /**
   * What `validate_project_name` reports: the text check, then the
   * availability check unless the project keeps its previous name up to
   * case. An empty name always fails, with "non-empty" as first message;
   * a project keeping its name can fail only that way.
   */
  function ProjectNameVerdict(env: Env, name: string, previous: Option<string>): (v: Verdict)
    ensures Consistent(v)
    ensures v.ok <==> NameValid(env, name, previous)
    ensures name == [] ==> !v.ok && v.messages[0] == NameEmpty
    ensures KeepsName(name, previous) ==> v == ValidateProjectNameText(name)
    ensures v.messages == (if name == [] then [NameEmpty] else [])
                          + (if !KeepsName(name, previous) && Taken(env, name) then [NameTaken(name)] else [])
    ensures |v.messages| <= 2
  {
    var text := ValidateProjectNameText(name);
    Then(text, if !KeepsName(name, previous) then ValidateProjectNameAvailable(env, name) else Pass)
  }

  /** `validate_project_name` */
  method ValidateProjectName(env: Env, name: string, previous: Option<string>) returns (ok: bool, messages: seq<Message>)
    ensures Verdict(ok, messages) == ProjectNameVerdict(env, name, previous)
  {
    ok := true;
    messages := [];
    var text := ValidateProjectNameText(name);
    ok := ok && text.ok;
    messages := messages + text.messages;
    assert messages == text.messages;
    if previous.None? || Lower(name) != Lower(previous.value) {
      var available := ValidateProjectNameAvailable(env, name);
      ok := ok && available.ok;
      messages := messages + available.messages;
    }
  }

  // ---------------------------------------------------------------------
  // Whole project info.

  /**
   * What `validate_project_info` reports: the name, description, contacts
   * and roles checks in that order, all of whose messages are kept. It
   * passes iff the project satisfies every business rule.
   */
  function ProjectInfoVerdict(env: Env, info: ProjectInfo, previous: Option<string>): (v: Verdict)
    ensures Consistent(v)
    ensures v.ok <==> ProjectInfoValid(env, info, previous)
    ensures v.messages == ProjectNameVerdict(env, info.name, previous).messages
                          + ValidateProjectDescription(info.description).messages
                          + ContactsVerdict(env, info.contacts).messages
                          + RolesVerdict(info.roles).messages
  {
    var name := ProjectNameVerdict(env, info.name, previous);
    var description := ValidateProjectDescription(info.description);
    var contacts := ContactsVerdict(env, info.contacts);
    var roles := RolesVerdict(info.roles);
    Then(Then(Then(name, description), contacts), roles)
  }

  /** `validate_project_info` */
  method ValidateProjectInfo(env: Env, info: ProjectInfo, previous: Option<string>) returns (ok: bool, messages: seq<Message>)
    ensures Verdict(ok, messages) == ProjectInfoVerdict(env, info, previous)
  {
    ok := true;
    messages := [];

    var nameOk, nameMessages := ValidateProjectName(env, info.name, previous);
    ok := ok && nameOk;
    messages := messages + nameMessages;
    assert messages == nameMessages;

    var description := ValidateProjectDescription(info.description);
    ok := ok && description.ok;
    messages := messages + description.messages;

    var contactsOk, contactsMessages := ValidateProjectContacts(env, info.contacts);
    ok := ok && contactsOk;
    messages := messages + contactsMessages;

    var rolesOk, rolesMessages := ValidateProjectRoles(info.roles);
    ok := ok && rolesOk;
    messages := messages + rolesMessages;
    ghost var nameVerdict := Verdict(nameOk, nameMessages);
    ghost var contactsVerdict := Verdict(contactsOk, contactsMessages);
    ghost var rolesVerdict := Verdict(rolesOk, rolesMessages);
    assert Verdict(ok, messages) == Then(Then(Then(nameVerdict, description), contactsVerdict), rolesVerdict);
  }

  // ---------------------------------------------------------------------
  // Adding, editing and approving a project.

  /** What `validate_add_project` reports: permission, then the new project's info. */
  function AddProjectVerdict(env: Env, info: ProjectInfo): (v: Verdict)
    ensures Consistent(v)
    ensures v.ok <==> env.canAdd(env.user) && ProjectInfoValid(env, info, None)
    ensures v.messages == ValidateAddPermission(env).messages + ProjectInfoVerdict(env, info, None).messages
  {
    Then(ValidateAddPermission(env), ProjectInfoVerdict(env, info, None))
  }

  /** `validate_add_project` */
  method ValidateAddProject(env: Env, info: ProjectInfo) returns (ok: bool, messages: seq<Message>)
    ensures Verdict(ok, messages) == AddProjectVerdict(env, info)
  {
    ok := true;
    messages := [];
    var permission := ValidateAddPermission(env);
    ok := ok && permission.ok;
    messages := messages + permission.messages;
    assert messages == permission.messages;
    var infoOk, infoMessages := ValidateProjectInfo(env, info, None);
    ok := ok && infoOk;
    messages := messages + infoMessages;
  }

  /**
   * What `validate_edit_project` reports: permission to edit this project,
   * then the info, whose name may stay the project's current name.
   */
  function EditProjectVerdict(env: Env, info: ProjectInfo, projectId: string): (v: Verdict)
    ensures Consistent(v)
    ensures v.ok <==> env.canEdit(env.user, projectId) && ProjectInfoValid(env, info, env.projectNameOf(projectId))
    ensures v.messages == ValidateEditPermission(env, projectId).messages
                          + ProjectInfoVerdict(env, info, env.projectNameOf(projectId)).messages
  {
    Then(ValidateEditPermission(env, projectId), ProjectInfoVerdict(env, info, env.projectNameOf(projectId)))
  }

  /** `validate_edit_project` */
  method ValidateEditProject(env: Env, info: ProjectInfo, projectId: string) returns (ok: bool, messages: seq<Message>)
    ensures Verdict(ok, messages) == EditProjectVerdict(env, info, projectId)
  {
    ok := true;
    messages := [];
    var permission := ValidateEditPermission(env, projectId);
    ok := ok && permission.ok;
    messages := messages + permission.messages;
    assert messages == permission.messages;
    var previous := env.projectNameOf(projectId);
    var infoOk, infoMessages := ValidateProjectInfo(env, info, previous);
    ok := ok && infoOk;
    messages := messages + infoMessages;
  }

  /**
   * What `validate_approve_project` reports, as written: permission, the
   * info, then the comments. The approval action is checked but its verdict
   * is dropped, so an unknown action neither fails nor adds a message.
   */
  function ApproveProjectVerdict(env: Env, info: ProjectInfo, projectId: string, action: string, comments: string): (v: Verdict)
    ensures Consistent(v)
    ensures v.ok <==> && env.canApprove(env.user)
                      && ProjectInfoValid(env, info, env.projectNameOf(projectId))
                      && CommentsValid(action, comments)
    ensures v.messages == ValidateApprovalPermission(env).messages
                          + ProjectInfoVerdict(env, info, env.projectNameOf(projectId)).messages
                          + ValidateApprovalComments(action, comments).messages
  {
    var permission := ValidateApprovalPermission(env);
    var infoVerdict := ProjectInfoVerdict(env, info, env.projectNameOf(projectId));
    Then(Then(permission, infoVerdict), ValidateApprovalComments(action, comments))
  }

  /** `validate_approve_project` */
  method ValidateApproveProject(env: Env, info: ProjectInfo, projectId: string, action: string, comments: string)
    returns (ok: bool, messages: seq<Message>)
    ensures Verdict(ok, messages) == ApproveProjectVerdict(env, info, projectId, action, comments)
  {
    ok := true;
    messages := [];
    var permission := ValidateApprovalPermission(env);
    ok := ok && permission.ok;
    messages := messages + permission.messages;
    assert messages == permission.messages;
    var previous := env.projectNameOf(projectId);
    var infoOk, infoMessages := ValidateProjectInfo(env, info, previous);
    ok := ok && infoOk;
    messages := messages + infoMessages;
    var actionVerdict := ValidateApprovalAction(action);
    var commentsVerdict := ValidateApprovalComments(action, comments);
    ok := ok && commentsVerdict.ok;
    messages := messages + commentsVerdict.messages;
    assert Verdict(ok, messages) == Then(Then(permission, Verdict(infoOk, infoMessages)), commentsVerdict);
  }

  /**
   * The evidently intended `validate_approve_project`: the action's verdict
   * is folded in between the info and the comments, so only "approved" or
   * "rejected" can pass.
   */
  function CheckedApproveProjectVerdict(env: Env, info: ProjectInfo, projectId: string, action: string, comments: string): (v: Verdict)
    ensures Consistent(v)
    ensures v.ok <==> && env.canApprove(env.user)
                      && ProjectInfoValid(env, info, env.projectNameOf(projectId))
                      && IsApprovalAction(action)
                      && CommentsValid(action, comments)
    ensures v.messages == ValidateApprovalPermission(env).messages
                          + ProjectInfoVerdict(env, info, env.projectNameOf(projectId)).messages
                          + ValidateApprovalAction(action).messages
                          + ValidateApprovalComments(action, comments).messages
  {
    var permission := ValidateApprovalPermission(env);
    var infoVerdict := ProjectInfoVerdict(env, info, env.projectNameOf(projectId));
    Then(Then(Then(permission, infoVerdict), ValidateApprovalAction(action)), ValidateApprovalComments(action, comments))
  }

  /** `validate_approve_project` with the action's verdict taken into account. */
  method ValidateApproveProjectChecked(env: Env, info: ProjectInfo, projectId: string, action: string, comments: string)
    returns (ok: bool, messages: seq<Message>)
    ensures Verdict(ok, messages) == CheckedApproveProjectVerdict(env, info, projectId, action, comments)
  {
    ok := true;
    messages := [];
    var permission := ValidateApprovalPermission(env);
    ok := ok && permission.ok;
    messages := messages + permission.messages;
    assert messages == permission.messages;
    var previous := env.projectNameOf(projectId);
    var infoOk, infoMessages := ValidateProjectInfo(env, info, previous);
    ok := ok && infoOk;
    messages := messages + infoMessages;
    var actionVerdict := ValidateApprovalAction(action);
    ok := ok && actionVerdict.ok;
    messages := messages + actionVerdict.messages;
    var commentsVerdict := ValidateApprovalComments(action, comments);
    ok := ok && commentsVerdict.ok;
    messages := messages + commentsVerdict.messages;
    ghost var infoVerdict := Verdict(infoOk, infoMessages);
    assert Verdict(ok, messages) == Then(Then(Then(permission, infoVerdict), actionVerdict), commentsVerdict);
  }

  // ---------------------------------------------------------------------
  // Project id.

  /**
   * What `validate_project_id` reports: an id that does not parse fails
   * with its one message and is not looked up; an id that parses passes iff
   * exactly one record has it.
   */
  function ProjectIdVerdict(env: Env, projectId: string): (v: Verdict)
    ensures Consistent(v)
    ensures env.parseInt(projectId) == None ==> v == Verdict(false, [InvalidProjectId(projectId)])
    ensures env.parseInt(projectId).Some? ==> v == ValidateProjectIdExists(env, projectId)
    ensures v.ok <==> env.parseInt(projectId).Some? && env.projectRecordCount(env.parseInt(projectId).value) == 1
    ensures |v.messages| <= 1
  {
    var isInt := ValidateProjectIdIsInt(env, projectId);
    Then(isInt, if isInt.ok then ValidateProjectIdExists(env, projectId) else Pass)
  }

  /** `validate_project_id` */
  method ValidateProjectId(env: Env, projectId: string) returns (ok: bool, messages: seq<Message>)
    ensures Verdict(ok, messages) == ProjectIdVerdict(env, projectId)
  {
    ok := true;
    messages := [];
    var isInt := ValidateProjectIdIsInt(env, projectId);
    ok := ok && isInt.ok;
    messages := messages + isInt.messages;
    assert messages == isInt.messages;
    if isInt.ok {
      var exists_ := ValidateProjectIdExists(env, projectId);
      ok := ok && exists_.ok;
      messages := messages + exists_.messages;
    }
  }
}
