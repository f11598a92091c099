/** The registry operations as they run.

    Each takes a configuration and returns a new one, built by loops over copies of its lists.
 */
module RegistryService {
  import opened Registry
  import opened Collections

  lemma PutBackendAt(backends: seq<Backend>, next: Backend, i: nat)
    requires i <= |backends| && forall k :: 0 <= k < i ==> backends[k].id != next.id
    ensures i == |backends| ==> PutBackend(backends, next) == backends + [next] && FindBackend(backends, next.id).None?
    ensures i < |backends| && backends[i].id == next.id ==>
              PutBackend(backends, next) == backends[i := next] && FindBackend(backends, next.id) == Some(backends[i])
  {
    if i > 0 {
      PutBackendAt(backends[1..], next, i - 1);
    }
  }

  lemma PutProjectAt(projects: seq<Project>, next: Project, i: nat)
    requires i <= |projects| && forall k :: 0 <= k < i ==> projects[k].id != next.id
    ensures i == |projects| ==> PutProject(projects, next) == projects + [next] && FindProject(projects, next.id).None?
    ensures i < |projects| && projects[i].id == next.id ==>
              PutProject(projects, next) == projects[i := next] && FindProject(projects, next.id) == Some(projects[i])
  {
    if i > 0 {
      PutProjectAt(projects[1..], next, i - 1);
    }
  }

  /** Records a backend, or refuses a second device identity for one already known. */
  method UpsertBackend(digest: Digest, c: Config, url: string, deviceId: string)
    returns (r: Option<Config>, backend: Option<Backend>)
    ensures r == Upsert(digest, c, url, deviceId)
    ensures backend.Some? <==> r.Some?
    ensures r.Some? ==> FindBackend(r.value.backends, backend.value.id) == backend && backend.value.deviceId == deviceId
  {
    hide PutBackend, FindBackend, CanonicalOrigin;
    var origin := CanonicalOrigin(url);
    if origin == "" || deviceId == "" {
      return None, None;
    }
    var next := NewBackend(digest, origin, deviceId);
    var backends := c.backends;
    FoundAfterPut(c.backends, next);
    for i := 0 to |backends|
      invariant backends == c.backends
      invariant forall k :: 0 <= k < i ==> backends[k].id != next.id
    {
      var existing := backends[i];
      if existing.id != next.id {
        continue;
      }
      PutBackendAt(c.backends, next, i);
      if existing.deviceId != "" && existing.deviceId != deviceId {
        return None, None;
      }
      backends := backends[i := next];
      return Some(c.(backends := backends)), Some(next);
    }
    PutBackendAt(c.backends, next, |backends|);
    return Some(c.(backends := backends + [next])), Some(next);
  }

  method BindProject(c: Config, projectId: string, backendId: string) returns (d: Config)
    ensures d == Bind(c, projectId, backendId)
  {
    hide PutProject;
    if projectId == "" || backendId == "" {
      return c;
    }
    var projects := c.projects;
    ghost var next := Project(projectId, backendId);
    for i := 0 to |projects|
      invariant projects == c.projects
      invariant forall k :: 0 <= k < i ==> projects[k].id != projectId
    {
      if projects[i].id == projectId {
        PutProjectAt(c.projects, next, i);
        projects := projects[i := projects[i].(backendId := backendId)];
        return c.(projects := projects);
      }
    }
    PutProjectAt(c.projects, next, |projects|);
    return c.(projects := projects + [Project(projectId, backendId)]);
  }

  method RebindProject(c: Config, projectId: string, backendId: string) returns (r: Option<Config>)
    ensures r == Rebind(c, projectId, backendId)
  {
    hide PutProject, FindProject, FindBackend;
    if projectId == "" || backendId == "" {
      return None;
    }
    if FindBackend(c.backends, backendId).None? {
      return None;
    }
    var projects := c.projects;
    ghost var next := Project(projectId, backendId);
    for i := 0 to |projects|
      invariant projects == c.projects
      invariant forall k :: 0 <= k < i ==> projects[k].id != projectId
    {
      if projects[i].id != projectId {
        continue;
      }
      PutProjectAt(c.projects, next, i);
      if projects[i].backendId == backendId {
        return None;
      }
      projects := projects[i := projects[i].(backendId := backendId)];
      return Some(c.(projects := projects));
    }
    PutProjectAt(c.projects, next, |projects|);
    return None;
  }

  /** Forgets a Project; the repositories cleared are exactly those registered to it, in order. */
  method ForgetProject(c: Config, projectId: string) returns (d: Config, cleared: seq<Workspace>)
    ensures d == RemoveProject(c, projectId)
    ensures projectId != "" ==> cleared == Filter(c.workspaces, (w: Workspace) => w.projectId == projectId)
    ensures projectId == "" ==> cleared == []
  {
    hide Filter;
    if projectId == "" {
      return c, [];
    }
    ghost var keepP, keepW := (p: Project) => p.id != projectId, (w: Workspace) => w.projectId != projectId;
    ghost var gone := (w: Workspace) => w.projectId == projectId;
    FilterNone(keepP);
    FilterNone(keepW);
    FilterNone(gone);
    var projects: seq<Project> := [];
    assert c.projects[..0] == [] && c.workspaces[..0] == [];
    for i := 0 to |c.projects|
      invariant projects == Filter(c.projects[..i], keepP)
    {
      FilterSnoc(c.projects, i, keepP);
      if c.projects[i].id != projectId {
        projects := projects + [c.projects[i]];
      }
    }
    var workspaces: seq<Workspace> := [];
    cleared := [];
    for i := 0 to |c.workspaces|
      invariant workspaces == Filter(c.workspaces[..i], keepW)
      invariant cleared == Filter(c.workspaces[..i], gone)
    {
      FilterSnoc(c.workspaces, i, keepW);
      FilterSnoc(c.workspaces, i, gone);
      if c.workspaces[i].projectId == projectId {
        cleared := cleared + [c.workspaces[i]];
        continue;
      }
      workspaces := workspaces + [c.workspaces[i]];
    }
    assert c.projects[..|c.projects|] == c.projects && c.workspaces[..|c.workspaces|] == c.workspaces;
    d := c.(projects := projects, workspaces := workspaces);
  }

  /** Forgets a backend with all that hangs on it, and counts the repositories lost. */
  method ForgetBackend(c: Config, backendId: string) returns (d: Config, cleared: nat)
    ensures d == RemoveBackend(c, backendId)
    ensures cleared == |c.workspaces| - |d.workspaces|
  {
    hide Filter, OnBackend;
    ghost var keepB, keepP := (b: Backend) => b.id != backendId, (p: Project) => p.backendId != backendId;
    FilterNone(keepB);
    FilterNone(keepP);
    OnNone(backendId);
    assert c.projects[..0] == [] && c.backends[..0] == [] && c.workspaces[..0] == [];
    var removed: set<string> := {};
    var projects: seq<Project> := [];
    for i := 0 to |c.projects|
      invariant projects == Filter(c.projects[..i], keepP)
      invariant removed == OnBackend(c.projects[..i], backendId)
    {
      FilterSnoc(c.projects, i, keepP);
      OnSnoc(c.projects, i, backendId);
      if c.projects[i].backendId == backendId {
        removed := removed + {c.projects[i].id};
        continue;
      }
      projects := projects + [c.projects[i]];
    }
    var backends: seq<Backend> := [];
    for i := 0 to |c.backends|
      invariant backends == Filter(c.backends[..i], keepB)
    {
      FilterSnoc(c.backends, i, keepB);
      if c.backends[i].id != backendId {
        backends := backends + [c.backends[i]];
      }
    }
    assert c.projects[..|c.projects|] == c.projects && c.backends[..|c.backends|] == c.backends;
    ghost var keepW := (w: Workspace) => w.projectId !in removed;
    FilterNone(keepW);
    var workspaces: seq<Workspace> := [];
    cleared := 0;
    for i := 0 to |c.workspaces|
      invariant workspaces == Filter(c.workspaces[..i], keepW)
      invariant cleared == i - |workspaces|
    {
      FilterSnoc(c.workspaces, i, keepW);
      if c.workspaces[i].projectId in removed {
        cleared := cleared + 1;
        continue;
      }
      workspaces := workspaces + [c.workspaces[i]];
    }
    assert c.workspaces[..|c.workspaces|] == c.workspaces;
    d := Config(backends, projects, workspaces);
  }

  lemma OnNone(backendId: string)
    ensures OnBackend([], backendId) == {}
  {
  }

  lemma OnSnoc(projects: seq<Project>, i: nat, backendId: string)
    requires i < |projects|
    ensures OnBackend(projects[..i + 1], backendId) ==
            OnBackend(projects[..i], backendId) + (if projects[i].backendId == backendId then {projects[i].id} else {})
  {
    assert projects[..i + 1] == projects[..i] + [projects[i]];
  }
}
