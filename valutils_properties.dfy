/**
 * Properties of the validators that relate several calls or several
 * validators, the discrepancy in `validate_approve_project`, and the
 * end-to-end examples of submitting and rejecting a project.
 */
module ValUtilsProperties {
  import opened Wrappers
  import opened PyStr
  import opened Project
  import opened ValUtils

  /** An empty project name sinks the whole project info, and its message comes first. */
  lemma EmptyNameFailsFirst(env: Env, info: ProjectInfo, previous: Option<string>)
    requires info.name == []
    ensures !ProjectInfoVerdict(env, info, previous).ok
    ensures ProjectInfoVerdict(env, info, previous).messages[0] == NameEmpty
  {
    var name := ProjectNameVerdict(env, info.name, previous);
    assert name.messages[0] == NameEmpty;
  }

  /**
   * A project that keeps its name (up to case) gets the same name verdict
   * whatever other projects the database holds.
   */
  lemma KeptNameIgnoresOtherProjects(env1: Env, env2: Env, name: string, previous: Option<string>)
    requires KeepsName(name, previous)
    ensures ProjectNameVerdict(env1, name, previous) == ProjectNameVerdict(env2, name, previous)
  {
  }

  /** Renaming "Foo" to "FOO" keeps the name. */
  lemma KeepsNameUpToCase()
    ensures KeepsName("FOO", Some("Foo"))
  {
    assert Lower("FOO") == "foo";
    assert Lower("Foo") == "foo";
  }

  /**
   * Availability is decided by truthiness: a name whose looked-up id is 0 is
   * reported as available although a project has it.
   */
  lemma ZeroIdCountsAsAvailable(env: Env, name: string)
    requires env.projectIdOf(name) == Some(0)
    ensures ValidateProjectNameAvailable(env, name) == Pass
  {
  }

  /**
   * A user who may not edit the project fails with the permission message
   * first, however valid the submitted info is.
   */
  lemma EditWithoutPermissionFailsFirst(env: Env, info: ProjectInfo, projectId: string)
    requires !env.canEdit(env.user, projectId)
    ensures !EditProjectVerdict(env, info, projectId).ok
    ensures EditProjectVerdict(env, info, projectId).messages[0] == EditNotAuthorized
  {
  }

  // ---------------------------------------------------------------------
  // validate_approve_project drops the verdict of the action check.

  /**
   * As written, an action other than "approved" or "rejected" is treated
   * exactly like "approved": no message about it and the same outcome.
   */
  lemma UnknownActionActsAsApproved(env: Env, info: ProjectInfo, projectId: string, action: string, comments: string)
    requires !IsApprovalAction(action)
    ensures ApproveProjectVerdict(env, info, projectId, action, comments)
         == ApproveProjectVerdict(env, info, projectId, "approved", comments)
  {
  }

  /** A concrete instance: an approver who picks the action "approve" with an otherwise valid project passes. */
  lemma ApproveAcceptsMisspelledAction(env: Env, info: ProjectInfo, projectId: string)
    requires env.canApprove(env.user) && ProjectInfoValid(env, info, env.projectNameOf(projectId))
    ensures ApproveProjectVerdict(env, info, projectId, "approve", "") == Pass
  {
    UnknownActionActsAsApproved(env, info, projectId, "approve", "");
  }

  /** With the action folded in, an unknown action fails and says so. */
  lemma CheckedRejectsUnknownAction(env: Env, info: ProjectInfo, projectId: string, action: string, comments: string)
    requires !IsApprovalAction(action)
    ensures !CheckedApproveProjectVerdict(env, info, projectId, action, comments).ok
    ensures InvalidApprovalAction(action) in CheckedApproveProjectVerdict(env, info, projectId, action, comments).messages
  {
    var permission := ValidateApprovalPermission(env);
    var infoVerdict := ProjectInfoVerdict(env, info, env.projectNameOf(projectId));
    var v := CheckedApproveProjectVerdict(env, info, projectId, action, comments);
    assert v.messages[|permission.messages| + |infoVerdict.messages|] == InvalidApprovalAction(action);
  }

  /** For "approved" and "rejected" the corrected check agrees with the original. */
  lemma CheckedAgreesOnValidActions(env: Env, info: ProjectInfo, projectId: string, action: string, comments: string)
    requires IsApprovalAction(action)
    ensures CheckedApproveProjectVerdict(env, info, projectId, action, comments)
         == ApproveProjectVerdict(env, info, projectId, action, comments)
  {
    var permission := ValidateApprovalPermission(env);
    var infoVerdict := ProjectInfoVerdict(env, info, env.projectNameOf(projectId));
    assert (permission.messages + infoVerdict.messages) + [] == permission.messages + infoVerdict.messages;
  }

  // ---------------------------------------------------------------------
  // End-to-end examples.

  const Submission := ProjectInfo(
    "Foo", "A short test project",
    [Contact("Alice", "alice@mit.edu")],
    [Role("Lead", "Runs it")])

  /**
   * A user allowed to add projects submits "Foo" with a four-word
   * description, one plain MIT contact and one complete role, and no project
   * has that name yet: the submission passes.
   */
  lemma SubmissionPasses(env: Env)
    requires env.canAdd(env.user)
    requires env.projectIdOf("Foo") == None
    requires env.isMitEmail("alice@mit.edu") && env.isPlainMitEmail("alice@mit.edu")
    ensures AddProjectVerdict(env, Submission) == Pass
  {
    FourWordDescription();
    var alice := Submission.contacts[0];
    assert alice.email == "alice@mit.edu";
    assert ContactsValid(env, Submission.contacts) by {
      assert AllMit(env, Submission.contacts);
      assert env.isPlainMitEmail(Submission.contacts[0].email);
    }
    assert AllRolesComplete(Submission.roles) by {
      assert RoleComplete(Submission.roles[0]);
    }
    assert ProjectInfoValid(env, Submission, None);
  }

  /** "A short test project" has four words. */
  lemma FourWordDescription()
    ensures HasThreeWords("A short test project")
  {
    var words := ["A", "short", "test", "project"];
    assert words[1..] == ["short", "test", "project"];
    assert words[1..][1..] == ["test", "project"];
    assert words[1..][1..][1..] == ["project"];
    assert Join(words, ' ') == "A short test project";
    SplitWhitespaceJoin(words);
    WordCount("A short test project");
  }

  /** Rejecting that project with an empty comment fails with the comment message alone. */
  lemma RejectingWithoutCommentFails(env: Env, projectId: string)
    requires env.canApprove(env.user)
    requires ProjectInfoValid(env, Submission, env.projectNameOf(projectId))
    ensures ApproveProjectVerdict(env, Submission, projectId, "rejected", "") == Verdict(false, [CommentsTooShort])
  {
    assert !HasThreeWords("");
  }
}
