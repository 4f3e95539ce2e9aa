/**
 * The project list screens (mobile `ProjectsScreen`, web `Projects`): the list
 * of the user's projects, newest first, and the creation form with its insert
 * payload. The mobile handler refuses an empty title itself; the web handler
 * has no such check (the browser's `required` attribute on the input is the
 * only guard, and it is not part of this code). The `client` constant selects
 * that behaviour and the project types each form offers.
 */
module ProjectList {
  import opened Wrappers
  import opened Records
  import opened Tables
  import opened Store

  /** `formData`: every input is kept as the text typed. */
  datatype Form = Form(title: string, projectType: string, urgencyLevel: string, budgetTarget: string, budgetMax: string)

  /** The initial `formData`, and the one restored after a successful create. */
  const DefaultForm := Form("", "buy", "medium", "", "")

  /** The project types the form offers: the web select has no `invest`. */
  function ProjectTypes(client: Client): seq<string>
  {
    if client == Mobile then ["buy", "rent", "invest"] else ["buy", "rent"]
  }

  /** The urgency levels both forms offer. */
  const UrgencyLevels: seq<string> := ["low", "medium", "high"]

  /** The form holds choices the client's controls can produce. */
  predicate Offered(client: Client, form: Form)
  {
    form.projectType in ProjectTypes(client) && form.urgencyLevel in UrgencyLevels
  }

  /**
   * A budget field of the payload: null for an empty input, else what
   * `parseInt` gives (None for NaN, which is stored as null).
   */
  function IntOrNull(text: string, parseInt: string -> Option<int>): (r: Option<int>)
    ensures r == None <==> text == "" || parseInt(text) == None
    ensures r != None ==> r == parseInt(text)
  {
    if text == "" then None else parseInt(text)
  }

  /** `projectData` in `handleCreateProject`. */
  function BuildPayload(form: Form, ownerId: Id, parseInt: string -> Option<int>): (p: ProjectPayload)
    ensures p.projectStatus == "active" && p.currency == "EUR" && p.ownerId == ownerId
    ensures p.title == form.title && p.projectType == form.projectType && p.urgencyLevel == form.urgencyLevel
    ensures p.budgetTarget == IntOrNull(form.budgetTarget, parseInt) && p.budgetMax == IntOrNull(form.budgetMax, parseInt)
  {
    ProjectPayload(
      title := form.title,
      projectType := form.projectType,
      projectStatus := "active",
      urgencyLevel := form.urgencyLevel,
      budgetTarget := IntOrNull(form.budgetTarget, parseInt),
      budgetMax := IntOrNull(form.budgetMax, parseInt),
      currency := "EUR",
      ownerId := ownerId)
  }

  /** Both forms start from choices they offer. */
  lemma DefaultFormOffered(client: Client)
    ensures Offered(client, DefaultForm)
  {
  }

  /** A payload built from a web form is never an `invest` project. */
  lemma WebPayloadNeverInvest(form: Form, ownerId: Id, parseInt: string -> Option<int>)
    requires Offered(Web, form)
    ensures BuildPayload(form, ownerId, parseInt).projectType in ["buy", "rent"]
    ensures BuildPayload(form, ownerId, parseInt).projectType != "invest"
  {
  }

  /**
   * The list query returns exactly the owner's projects, newest first (each
   * project's `created_at` is its insertion stamp).
   */
  lemma OwnedNewestFirst(projects: map<Id, Project>, owner: Id, n: nat)
    requires forall id :: id in projects ==> projects[id].id == id && projects[id].createdAt == id
    ensures NewestFirstOf(WhereNewestFirst(projects, OwnedBy(owner), n), projects, owner, n)
  {
    var r := WhereNewestFirst(projects, OwnedBy(owner), n);
    forall x | x in r
      ensures x.payload.ownerId == owner && x.createdAt < n && x.id in projects && projects[x.id] == x
    {
      WhereNewestFirstMembers(projects, OwnedBy(owner), n, x);
    }
    forall id | id < n && id in projects && projects[id].payload.ownerId == owner
      ensures projects[id] in r
    {
      WhereNewestFirstMembers(projects, OwnedBy(owner), n, projects[id]);
    }
    NewestFirstDescending(projects, owner, n);
  }

  /**
   * After a successful create, the refetched list is the new project followed
   * by the list as it was: the new project has the newest `created_at`.
   */
  lemma CreatedListedFirst(projects: map<Id, Project>, n: nat, payload: ProjectPayload)
    requires WellKeyed(projects, (p: Project) => p.id, n)
    ensures var p := Project(n, n, payload);
            WhereNewestFirst(projects[n := p], OwnedBy(payload.ownerId), n + 1)
              == [p] + WhereNewestFirst(projects, OwnedBy(payload.ownerId), n)
  {
    WhereNewestFirstAgrees(projects, projects[n := Project(n, n, payload)], OwnedBy(payload.ownerId), n);
  }

  /** `r` strictly decreases in `created_at`. */
  predicate Descending(r: seq<Project>)
  {
    forall i, j :: 0 <= i < j < |r| ==> r[i].createdAt > r[j].createdAt
  }

  /** The newest-first list strictly decreases in `created_at`. */
  lemma {:induction false} NewestFirstDescending(projects: map<Id, Project>, owner: Id, n: nat)
    requires forall id :: id in projects ==> projects[id].id == id && projects[id].createdAt == id
    ensures Descending(WhereNewestFirst(projects, OwnedBy(owner), n))
  {
    if n > 0 {
      NewestFirstDescending(projects, owner, n - 1);
      var rest := WhereNewestFirst(projects, OwnedBy(owner), n - 1);
      var r := WhereNewestFirst(projects, OwnedBy(owner), n);
      if n - 1 in projects && OwnedBy(owner)(projects[n - 1]) {
        forall x | x in rest ensures x.createdAt < n - 1 {
          WhereNewestFirstMembers(projects, OwnedBy(owner), n - 1, x);
        }
        assert r == [projects[n - 1]] + rest;
        assert forall i :: 0 < i < |r| ==> r[i] == rest[i - 1] && rest[i - 1] in rest;
      } else {
        assert r == rest;
      }
    }
  }

  /**
   * `r` lists exactly the projects of `owner` with id below `n`, each as
   * stored, in strictly decreasing `created_at` order.
   */
  ghost predicate NewestFirstOf(r: seq<Project>, projects: map<Id, Project>, owner: Id, n: nat)
  {
    && (forall i :: 0 <= i < |r| ==> r[i].payload.ownerId == owner && r[i].createdAt < n && r[i].id in projects && projects[r[i].id] == r[i])
    && Descending(r)
    && (forall id :: id < n && id in projects && projects[id].payload.ownerId == owner ==> projects[id] in r)
  }

  /** What `handleCreateProject` ended with. */
  datatype CreateOutcome = TitleMissing | Created(project: Project) | InsertFailed

  class ProjectsScreen {
    const client: Client
    const store: Datastore
    const userId: Id
    var projects: seq<Project>
    var loading: bool
    var dialogOpen: bool
    var creating: bool
    var formData: Form

    ghost predicate Valid()
      reads this, store
    {
      store.Valid() && Offered(client, formData) && !creating
    }

    constructor (client: Client, store: Datastore, userId: Id)
      requires store.Valid()
      ensures Valid()
      ensures this.client == client && this.store == store && this.userId == userId
      ensures projects == [] && loading && !dialogOpen && formData == DefaultForm
    {
      this.client := client;
      this.store := store;
      this.userId := userId;
      projects := [];
      loading := true;
      dialogOpen := false;
      creating := false;
      formData := DefaultForm;
    }

    /** `fetchProjects`: the user's projects, newest first; on failure the list is kept. */
    method FetchProjects(ok: bool)
      requires Valid()
      modifies this`projects, this`loading
      ensures Valid()
      ensures !loading
      ensures projects == if ok then store.ProjectsOwnedBy(userId) else old(projects)
    {
      if ok {
        projects := store.ProjectsOwnedBy(userId);
      }
      loading := false;
    }

    /** The create button / dialog trigger. */
    method OpenDialog()
      modifies this`dialogOpen
      ensures dialogOpen
    {
      dialogOpen := true;
    }

    /** The project type buttons (mobile) or select (web). */
    method ChooseProjectType(projectType: string)
      requires Valid() && projectType in ProjectTypes(client)
      modifies this`formData
      ensures Valid() && formData == old(formData).(projectType := projectType)
    {
      formData := formData.(projectType := projectType);
    }

    /** The urgency buttons (mobile) or select (web). */
    method ChooseUrgency(urgencyLevel: string)
      requires Valid() && urgencyLevel in UrgencyLevels
      modifies this`formData
      ensures Valid() && formData == old(formData).(urgencyLevel := urgencyLevel)
    {
      formData := formData.(urgencyLevel := urgencyLevel);
    }

    /** The three text inputs: title, target budget, maximum budget. */
    method EditText(title: string, budgetTarget: string, budgetMax: string)
      requires Valid()
      modifies this`formData
      ensures Valid()
      ensures formData == old(formData).(title := title, budgetTarget := budgetTarget, budgetMax := budgetMax)
    {
      formData := formData.(title := title, budgetTarget := budgetTarget, budgetMax := budgetMax);
    }

    /**
     * `handleCreateProject`: (mobile only) refuse an empty title; insert the
     * payload; on success close the dialog, reset the form and refetch the
     * list; on failure keep the form as it was.
     */
    method HandleCreateProject(parseInt: string -> Option<int>, insertOk: bool, fetchOk: bool) returns (outcome: CreateOutcome)
      requires Valid()
      modifies this`projects, this`loading, this`dialogOpen, this`creating, this`formData, store
      ensures Valid()
      ensures store.preferences == old(store.preferences) && store.values == old(store.values)
      ensures client == Mobile && old(formData).title == "" ==>
                && outcome == TitleMissing
                && store.log == old(store.log) && store.projects == old(store.projects) && store.nextId == old(store.nextId)
                && formData == old(formData) && dialogOpen == old(dialogOpen) && projects == old(projects) && loading == old(loading)
      ensures !(client == Mobile && old(formData).title == "") ==>
                var payload := BuildPayload(old(formData), userId, parseInt);
                && store.log == old(store.log) + [ProjectInsert(payload)]
                && (insertOk ==>
                      && outcome == Created(Project(old(store.nextId), old(store.nextId), payload))
                      && store.projects == old(store.projects)[old(store.nextId) := outcome.project]
                      && store.nextId == old(store.nextId) + 1
                      && store.PreferencesOf(outcome.project.id) == []
                      && formData == DefaultForm && !dialogOpen && !loading
                      && projects == (if fetchOk then store.ProjectsOwnedBy(userId) else old(projects)))
                && (!insertOk ==>
                      && outcome == InsertFailed
                      && store.projects == old(store.projects) && store.nextId == old(store.nextId)
                      && formData == old(formData) && dialogOpen == old(dialogOpen)
                      && projects == old(projects) && loading == old(loading))
    {
      if client == Mobile && formData.title == "" {
        return TitleMissing;
      }
      creating := true;
      var projectData := BuildPayload(formData, userId, parseInt);
      var data := store.InsertProject(projectData, insertOk);
      if data.Some? {
        dialogOpen := false;
        formData := DefaultForm;
        creating := false;
        FetchProjects(fetchOk);
        outcome := Created(data.value);
      } else {
        outcome := InsertFailed;
      }
      creating := false;
    }
  }
}
