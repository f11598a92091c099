/** The profile registry: backends, the Projects on them, and the repositories of those Projects. */
module Registry {
  import opened Text
  import opened Collections

  datatype Backend = Backend(id: string, origin: string, deviceId: string)
  datatype Project = Project(id: string, backendId: string)
  datatype Workspace = Workspace(id: string, projectId: string, root: string)
  datatype Config = Config(backends: seq<Backend>, projects: seq<Project>, workspaces: seq<Workspace>)

  /** The identifier derived from an origin; nothing below assumes more of it than it says. */
  type Digest = string -> string

  // ---------------------------------------------------------------- Origins

  function TrimLeftSpace(s: string): (r: string)
    ensures |r| <= |s| && (|r| == |s| ==> r == s)
  {
    if s != "" && IsSpace(s[0]) then TrimLeftSpace(s[1..]) else s
  }

  function TrimRightSpace(s: string): (r: string)
    ensures |r| <= |s| && (|r| == |s| ==> r == s)
  {
    if s != "" && IsSpace(s[|s| - 1]) then TrimRightSpace(s[..|s| - 1]) else s
  }

  function TrimSlashes(s: string): (r: string)
    ensures |r| <= |s| && (|r| == |s| ==> r == s)
  {
    if s != "" && s[|s| - 1] == '/' then TrimSlashes(s[..|s| - 1]) else s
  }

  function CanonicalOrigin(origin: string): (r: string)
    ensures |r| <= |origin| && (|r| == |origin| ==> r == origin)
  {
    TrimSlashes(TrimRightSpace(TrimLeftSpace(origin)))
  }

  function BackendId(digest: Digest, origin: string): string {
    "bk_" + digest(CanonicalOrigin(origin))
  }

  function NewBackend(digest: Digest, url: string, deviceId: string): Backend {
    var origin := CanonicalOrigin(url);
    Backend(BackendId(digest, origin), origin, deviceId)
  }

  // ---------------------------------------------------------------- Lookups

  function FindBackend(backends: seq<Backend>, id: string): Option<Backend> {
    if backends == [] then None
    else if backends[0].id == id then Some(backends[0])
    else FindBackend(backends[1..], id)
  }

  function FindProject(projects: seq<Project>, id: string): Option<Project> {
    if projects == [] then None
    else if projects[0].id == id then Some(projects[0])
    else FindProject(projects[1..], id)
  }

  function BackendForProject(c: Config, projectId: string): Option<Backend> {
    var p := FindProject(c.projects, projectId);
    if p.None? then None else FindBackend(c.backends, p.value.backendId)
  }

  function BackendForWorkspace(c: Config, w: Workspace): Option<Backend> {
    BackendForProject(c, w.projectId)
  }

  // ---------------------------------------------------------------- Operations

  function PutBackend(backends: seq<Backend>, next: Backend): seq<Backend> {
    if backends == [] then [next]
    else if backends[0].id == next.id then [next] + backends[1..]
    else [backends[0]] + PutBackend(backends[1..], next)
  }

  function PutProject(projects: seq<Project>, next: Project): seq<Project> {
    if projects == [] then [next]
    else if projects[0].id == next.id then [next] + projects[1..]
    else [projects[0]] + PutProject(projects[1..], next)
  }

  function Upsert(digest: Digest, c: Config, url: string, deviceId: string): Option<Config> {
    if CanonicalOrigin(url) == "" || deviceId == "" then None
    else
      var next := NewBackend(digest, CanonicalOrigin(url), deviceId);
      var existing := FindBackend(c.backends, next.id);
      if existing.Some? && existing.value.deviceId != "" && existing.value.deviceId != deviceId then None
      else Some(c.(backends := PutBackend(c.backends, next)))
  }

  function Bind(c: Config, projectId: string, backendId: string): Config {
    if projectId == "" || backendId == "" then c
    else c.(projects := PutProject(c.projects, Project(projectId, backendId)))
  }

  function Rebind(c: Config, projectId: string, backendId: string): Option<Config> {
    var p := FindProject(c.projects, projectId);
    if projectId == "" || backendId == "" || FindBackend(c.backends, backendId).None? then None
    else if p.None? || p.value.backendId == backendId then None
    else Some(c.(projects := PutProject(c.projects, Project(projectId, backendId))))
  }

  function RemoveProject(c: Config, projectId: string): Config {
    if projectId == "" then c
    else c.(projects := Filter(c.projects, (p: Project) => p.id != projectId),
            workspaces := Filter(c.workspaces, (w: Workspace) => w.projectId != projectId))
  }

  /** The Projects a backend takes with it. */
  function OnBackend(projects: seq<Project>, backendId: string): set<string> {
    set p | p in projects && p.backendId == backendId :: p.id
  }

  function RemoveBackend(c: Config, backendId: string): Config {
    var removed := OnBackend(c.projects, backendId);
    Config(Filter(c.backends, (b: Backend) => b.id != backendId),
           Filter(c.projects, (p: Project) => p.backendId != backendId),
           Filter(c.workspaces, (w: Workspace) => w.projectId !in removed))
  }

  predicate Taken(c: Config, w: Workspace) {
    exists v :: v in c.workspaces && (v.id == w.id || v.root == w.root)
  }

  /** Registration of a repository: its backend, its Project, itself; or nothing. */
  function Register(digest: Digest, c: Config, url: string, deviceId: string, w: Workspace): Option<Config> {
    if w.projectId == "" then None
    else
      var upserted := Upsert(digest, c, url, deviceId);
      if upserted.None? then None
      else
        var id := NewBackend(digest, CanonicalOrigin(url), deviceId).id;
        var bound := BackendForProject(upserted.value, w.projectId);
        if bound.Some? && bound.value.id != id then None
        else
          var next := Bind(upserted.value, w.projectId, id);
          if Taken(next, w) then None else Some(next.(workspaces := next.workspaces + [w]))
  }

  // ---------------------------------------------------------------- What every operation keeps

  predicate UniqueBackends(backends: seq<Backend>) {
    forall i, j :: 0 <= i < j < |backends| ==> backends[i].id != backends[j].id
  }

  predicate UniqueProjects(projects: seq<Project>) {
    forall i, j :: 0 <= i < j < |projects| ==> projects[i].id != projects[j].id
  }

  predicate DistinctWorkspaces(workspaces: seq<Workspace>) {
    forall i, j :: 0 <= i < j < |workspaces| ==>
      workspaces[i].id != workspaces[j].id && workspaces[i].root != workspaces[j].root
  }

  predicate Known(backends: seq<Backend>, id: string) {
    exists b :: b in backends && b.id == id
  }

  predicate Bound(projects: seq<Project>, id: string) {
    exists p :: p in projects && p.id == id
  }

  predicate Consistent(c: Config) {
    && UniqueBackends(c.backends) && UniqueProjects(c.projects)
    && (forall p :: p in c.projects ==> Known(c.backends, p.backendId))
    && (forall w :: w in c.workspaces ==> Bound(c.projects, w.projectId))
  }

  lemma {:induction false} FindBackendIs(backends: seq<Backend>, id: string)
    ensures var r := FindBackend(backends, id);
            if r.Some? then r.value in backends && r.value.id == id else !Known(backends, id)
  {
    if backends != [] {
      FindBackendIs(backends[1..], id);
    }
  }

  lemma {:induction false} FindProjectIs(projects: seq<Project>, id: string)
    ensures var r := FindProject(projects, id);
            if r.Some? then r.value in projects && r.value.id == id else !Bound(projects, id)
  {
    if projects != [] {
      FindProjectIs(projects[1..], id);
    }
  }

  /** With unique identifiers a lookup finds the one record that has it. */
  lemma TheBackend(backends: seq<Backend>, b: Backend)
    requires UniqueBackends(backends) && b in backends
    ensures FindBackend(backends, b.id) == Some(b)
  {
    hide FindBackend;
    FindBackendIs(backends, b.id);
    var r := FindBackend(backends, b.id);
    assert Known(backends, b.id);
    var i :| 0 <= i < |backends| && backends[i] == b;
    var j :| 0 <= j < |backends| && backends[j] == r.value;
  }

  lemma TheProject(projects: seq<Project>, p: Project)
    requires UniqueProjects(projects) && p in projects
    ensures FindProject(projects, p.id) == Some(p)
  {
    hide FindProject;
    FindProjectIs(projects, p.id);
    var r := FindProject(projects, p.id);
    assert Bound(projects, p.id);
    var i :| 0 <= i < |projects| && projects[i] == p;
    var j :| 0 <= j < |projects| && projects[j] == r.value;
  }

  lemma {:induction false} PutBackendIs(backends: seq<Backend>, next: Backend)
    requires UniqueBackends(backends)
    ensures var r := PutBackend(backends, next);
            && UniqueBackends(r)
            && (forall b :: b in r <==> b == next || (b in backends && b.id != next.id))
  {
    if backends != [] {
      assert backends == [backends[0]] + backends[1..];
      if backends[0].id != next.id {
        PutBackendIs(backends[1..], next);
      }
    }
  }

  lemma {:induction false} PutProjectIs(projects: seq<Project>, next: Project)
    requires UniqueProjects(projects)
    ensures var r := PutProject(projects, next);
            && UniqueProjects(r)
            && (forall p :: p in r <==> p == next || (p in projects && p.id != next.id))
  {
    if projects != [] {
      assert projects == [projects[0]] + projects[1..];
      if projects[0].id != next.id {
        PutProjectIs(projects[1..], next);
      }
    }
  }

  lemma UpsertKeeps(digest: Digest, c: Config, url: string, deviceId: string)
    requires Consistent(c) && Upsert(digest, c, url, deviceId).Some?
    ensures var d := Upsert(digest, c, url, deviceId).value;
            && Consistent(d) && Known(d.backends, NewBackend(digest, CanonicalOrigin(url), deviceId).id)
            && (forall id :: Known(c.backends, id) ==> Known(d.backends, id))
  {
    hide PutBackend, CanonicalOrigin;
    var next := NewBackend(digest, CanonicalOrigin(url), deviceId);
    var d := Upsert(digest, c, url, deviceId).value;
    PutBackendIs(c.backends, next);
    assert next in d.backends;
    forall id | Known(c.backends, id) ensures Known(d.backends, id) {
      var b :| b in c.backends && b.id == id;
      if b.id != next.id {
        assert b in d.backends;
      }
    }
  }

  lemma PutProjectKeeps(c: Config, next: Project)
    requires Consistent(c) && Known(c.backends, next.backendId)
    ensures Consistent(c.(projects := PutProject(c.projects, next))) && Bound(PutProject(c.projects, next), next.id)
  {
    hide PutProject, Known;
    PutProjectIs(c.projects, next);
    var r := PutProject(c.projects, next);
    assert next in r;
    forall w | w in c.workspaces ensures Bound(r, w.projectId) {
      var p :| p in c.projects && p.id == w.projectId;
      if p.id != next.id {
        assert p in r;
      }
    }
  }

  lemma FilterBackends(backends: seq<Backend>, keep: Backend -> bool)
    requires UniqueBackends(backends)
    ensures UniqueBackends(Filter(backends, keep))
  {
    hide Filter;
    var from := FilterInOrder(backends, keep);
  }

  lemma FilterProjects(projects: seq<Project>, keep: Project -> bool)
    requires UniqueProjects(projects)
    ensures UniqueProjects(Filter(projects, keep))
  {
    hide Filter;
    var from := FilterInOrder(projects, keep);
  }

  lemma FilterWorkspaces(workspaces: seq<Workspace>, keep: Workspace -> bool)
    requires DistinctWorkspaces(workspaces)
    ensures DistinctWorkspaces(Filter(workspaces, keep))
  {
    hide Filter;
    var from := FilterInOrder(workspaces, keep);
  }

  lemma RemoveProjectIs(c: Config, projectId: string)
    requires projectId != ""
    ensures var d := RemoveProject(c, projectId);
            && d.backends == c.backends
            && (forall p :: p in d.projects <==> p in c.projects && p.id != projectId)
            && (forall w :: w in d.workspaces <==> w in c.workspaces && w.projectId != projectId)
  {
    var keepP, keepW := (p: Project) => p.id != projectId, (w: Workspace) => w.projectId != projectId;
    forall p ensures p in Filter(c.projects, keepP) <==> p in c.projects && keepP(p) {
      FilterIs(c.projects, keepP, p);
    }
    forall w ensures w in Filter(c.workspaces, keepW) <==> w in c.workspaces && keepW(w) {
      FilterIs(c.workspaces, keepW, w);
    }
  }

  lemma RemoveProjectKeeps(c: Config, projectId: string)
    requires Consistent(c)
    ensures Consistent(RemoveProject(c, projectId))
  {
    hide Filter, Known;
    if projectId != "" {
      var d := RemoveProject(c, projectId);
      RemoveProjectIs(c, projectId);
      FilterProjects(c.projects, (p: Project) => p.id != projectId);
      forall w | w in d.workspaces ensures Bound(d.projects, w.projectId) {
        var p :| p in c.projects && p.id == w.projectId;
        assert p in d.projects;
      }
    }
  }

  lemma RemoveBackendIs(c: Config, backendId: string)
    ensures var d := RemoveBackend(c, backendId);
            && (forall b :: b in d.backends <==> b in c.backends && b.id != backendId)
            && (forall p :: p in d.projects <==> p in c.projects && p.backendId != backendId)
            && (forall w :: w in d.workspaces
                 <==> w in c.workspaces && w.projectId !in OnBackend(c.projects, backendId))
  {
    var removed := OnBackend(c.projects, backendId);
    var keepB, keepP := (b: Backend) => b.id != backendId, (p: Project) => p.backendId != backendId;
    var keepW := (w: Workspace) => w.projectId !in removed;
    forall b ensures b in Filter(c.backends, keepB) <==> b in c.backends && keepB(b) {
      FilterIs(c.backends, keepB, b);
    }
    forall p ensures p in Filter(c.projects, keepP) <==> p in c.projects && keepP(p) {
      FilterIs(c.projects, keepP, p);
    }
    forall w ensures w in Filter(c.workspaces, keepW) <==> w in c.workspaces && keepW(w) {
      FilterIs(c.workspaces, keepW, w);
    }
  }

  lemma RemoveBackendKeeps(c: Config, backendId: string)
    requires Consistent(c)
    ensures Consistent(RemoveBackend(c, backendId))
  {
    hide Filter;
    var d := RemoveBackend(c, backendId);
    RemoveBackendIs(c, backendId);
    FilterProjects(c.projects, (p: Project) => p.backendId != backendId);
    FilterBackends(c.backends, (b: Backend) => b.id != backendId);
    forall p | p in d.projects ensures Known(d.backends, p.backendId) {
      var b :| b in c.backends && b.id == p.backendId;
      assert b in d.backends;
    }
    forall w | w in d.workspaces ensures Bound(d.projects, w.projectId) {
      var p :| p in c.projects && p.id == w.projectId;
      assert p in d.projects;
    }
  }

  lemma RegisterKeeps(digest: Digest, c: Config, url: string, deviceId: string, w: Workspace)
    requires Consistent(c) && DistinctWorkspaces(c.workspaces) && Register(digest, c, url, deviceId, w).Some?
    ensures var d := Register(digest, c, url, deviceId, w).value;
            Consistent(d) && DistinctWorkspaces(d.workspaces)
  {
    hide Upsert, CanonicalOrigin, PutProject, UniqueBackends, UniqueProjects, Known, Bound;
    var u := Upsert(digest, c, url, deviceId).value;
    UpsertKeeps(digest, c, url, deviceId);
    UpsertWorkspaces(digest, c, url, deviceId);
    var id := NewBackend(digest, CanonicalOrigin(url), deviceId).id;
    assert id != "";
    PutProjectKeeps(u, Project(w.projectId, id));
  }

  lemma UpsertWorkspaces(digest: Digest, c: Config, url: string, deviceId: string)
    requires Upsert(digest, c, url, deviceId).Some?
    ensures Upsert(digest, c, url, deviceId).value.workspaces == c.workspaces
  {
    hide PutBackend, CanonicalOrigin;
  }

  // ---------------------------------------------------------------- Every run

  datatype Op =
    | DoUpsert(url: string, deviceId: string)
    | DoBind(projectId: string, backendId: string)
    | DoRebind(projectId: string, backendId: string)
    | DoRemoveProject(projectId: string)
    | DoRemoveBackend(backendId: string)
    | DoRegister(url: string, deviceId: string, w: Workspace)

  function OrSame(c: Config, r: Option<Config>): Config {
    if r.Some? then r.value else c
  }

  /** A failing operation leaves the configuration as it was. */
  function Apply(digest: Digest, c: Config, op: Op): Config {
    match op
    case DoUpsert(url, deviceId) => OrSame(c, Upsert(digest, c, url, deviceId))
    case DoBind(p, b) => Bind(c, p, b)
    case DoRebind(p, b) => OrSame(c, Rebind(c, p, b))
    case DoRemoveProject(p) => RemoveProject(c, p)
    case DoRemoveBackend(b) => RemoveBackend(c, b)
    case DoRegister(url, deviceId, w) => OrSame(c, Register(digest, c, url, deviceId, w))
  }

  function Run(digest: Digest, c: Config, ops: seq<Op>): Config
    decreases |ops|
  {
    if ops == [] then c else Run(digest, Apply(digest, c, ops[0]), ops[1..])
  }

  /** Binding is the one operation that does not look its backend up itself. */
  predicate BindsKnown(digest: Digest, c: Config, ops: seq<Op>)
    decreases |ops|
  {
    ops != [] ==>
      && (ops[0].DoBind? ==> Known(c.backends, ops[0].backendId))
      && BindsKnown(digest, Apply(digest, c, ops[0]), ops[1..])
  }

  lemma RebindKeeps(c: Config, projectId: string, backendId: string)
    requires Consistent(c) && Rebind(c, projectId, backendId).Some?
    ensures Consistent(Rebind(c, projectId, backendId).value)
    ensures Rebind(c, projectId, backendId).value.workspaces == c.workspaces
  {
    hide PutProject, FindProject, Consistent;
    FindBackendIs(c.backends, backendId);
    PutProjectKeeps(c, Project(projectId, backendId));
  }

  lemma ApplyKeeps(digest: Digest, c: Config, op: Op)
    requires Consistent(c) && DistinctWorkspaces(c.workspaces) && (op.DoBind? ==> Known(c.backends, op.backendId))
    ensures var d := Apply(digest, c, op); Consistent(d) && DistinctWorkspaces(d.workspaces)
  {
    hide Upsert, Rebind, Register, Filter, PutProject, Consistent, DistinctWorkspaces, Known;
    match op
    case DoUpsert(url, deviceId) =>
      if Upsert(digest, c, url, deviceId).Some? {
        UpsertKeeps(digest, c, url, deviceId);
        UpsertWorkspaces(digest, c, url, deviceId);
      }
    case DoBind(p, b) =>
      PutProjectKeeps(c, Project(p, b));
    case DoRebind(p, b) =>
      if Rebind(c, p, b).Some? {
        RebindKeeps(c, p, b);
      }
    case DoRemoveProject(p) =>
      RemoveProjectKeeps(c, p);
      FilterWorkspaces(c.workspaces, (w: Workspace) => w.projectId != p);
    case DoRemoveBackend(b) =>
      RemoveBackendKeeps(c, b);
      var removed := OnBackend(c.projects, b);
      FilterWorkspaces(c.workspaces, (w: Workspace) => w.projectId !in removed);
    case DoRegister(url, deviceId, w) =>
      if Register(digest, c, url, deviceId, w).Some? {
        RegisterKeeps(digest, c, url, deviceId, w);
      }
  }

  /** Any sequence of operations that binds only to known backends keeps identifiers unique,
      every Project on a known backend, every repository on a known Project, and no repository
      registered twice.
   */
  lemma {:induction false} EveryRunIsConsistent(digest: Digest, c: Config, ops: seq<Op>)
    requires Consistent(c) && DistinctWorkspaces(c.workspaces) && BindsKnown(digest, c, ops)
    ensures var d := Run(digest, c, ops); Consistent(d) && DistinctWorkspaces(d.workspaces)
    decreases |ops|
  {
    hide Apply, Consistent, DistinctWorkspaces, Known;
    if ops != [] {
      ApplyKeeps(digest, c, ops[0]);
      EveryRunIsConsistent(digest, Apply(digest, c, ops[0]), ops[1..]);
    }
  }

  // ---------------------------------------------------------------- Where repositories publish

  /** In a consistent registry a Project resolves to the one backend it names. */
  lemma Resolves(c: Config, p: Project, b: Backend)
    requires Consistent(c) && p in c.projects && b in c.backends && b.id == p.backendId
    ensures BackendForProject(c, p.id) == Some(b)
  {
    hide FindBackend, FindProject;
    TheProject(c.projects, p);
    TheBackend(c.backends, b);
  }

  lemma EveryWorkspaceResolves(c: Config, w: Workspace) returns (p: Project, b: Backend)
    requires Consistent(c) && w in c.workspaces
    ensures p in c.projects && p.id == w.projectId && b in c.backends && b.id == p.backendId
    ensures BackendForWorkspace(c, w) == Some(b)
  {
    hide BackendForProject;
    assert Bound(c.projects, w.projectId);
    p :| p in c.projects && p.id == w.projectId;
    assert Known(c.backends, p.backendId);
    b :| b in c.backends && b.id == p.backendId;
    Resolves(c, p, b);
  }

  /** Removing a backend clears exactly the repositories that published to it; every other one
      still publishes where it did.
   */
  lemma RemoveBackendCascade(c: Config, backendId: string, w: Workspace)
    requires Consistent(c) && w in c.workspaces
    ensures var d := RemoveBackend(c, backendId);
            var target := BackendForWorkspace(c, w);
            && target.Some?
            && (w in d.workspaces <==> target.value.id != backendId)
            && (w in d.workspaces ==> BackendForWorkspace(d, w) == target)
  {
    hide RemoveBackend, BackendForProject, UniqueBackends, UniqueProjects;
    var d := RemoveBackend(c, backendId);
    var p, b := EveryWorkspaceResolves(c, w);
    RemoveBackendIs(c, backendId);
    RemoveBackendKeeps(c, backendId);
    assert w.projectId in OnBackend(c.projects, backendId) <==> p.backendId == backendId by {
      if w.projectId in OnBackend(c.projects, backendId) {
        var q :| q in c.projects && q.backendId == backendId && q.id == w.projectId;
        TheProject(c.projects, q);
        TheProject(c.projects, p);
      }
    }
    if p.backendId != backendId {
      Resolves(d, p, b);
    }
  }

  lemma RemoveProjectCascade(c: Config, projectId: string, w: Workspace)
    requires Consistent(c) && w in c.workspaces && projectId != ""
    ensures var d := RemoveProject(c, projectId);
            && (w in d.workspaces <==> w.projectId != projectId)
            && (w in d.workspaces ==> BackendForWorkspace(d, w) == BackendForWorkspace(c, w))
  {
    hide RemoveProject, BackendForProject, UniqueBackends, UniqueProjects;
    var p, b := EveryWorkspaceResolves(c, w);
    RemoveProjectIs(c, projectId);
    RemoveProjectKeeps(c, projectId);
    if w.projectId != projectId {
      Resolves(RemoveProject(c, projectId), p, b);
    }
  }

  /** Moving a Project moves its own repositories and no others. */
  lemma RebindMovesOne(c: Config, projectId: string, backendId: string, w: Workspace)
    requires Consistent(c) && w in c.workspaces && Rebind(c, projectId, backendId).Some?
    ensures var d := Rebind(c, projectId, backendId).value;
            BackendForWorkspace(d, w) ==
            if w.projectId == projectId then FindBackend(c.backends, backendId) else BackendForWorkspace(c, w)
  {
    hide BackendForProject, PutProject, UniqueBackends, UniqueProjects, FindBackend, FindProject;
    var d := Rebind(c, projectId, backendId).value;
    var p, b := EveryWorkspaceResolves(c, w);
    RebindKeeps(c, projectId, backendId);
    PutProjectIs(c.projects, Project(projectId, backendId));
    FindBackendIs(c.backends, backendId);
    if w.projectId == projectId {
      Resolves(d, Project(projectId, backendId), FindBackend(c.backends, backendId).value);
    } else {
      Resolves(d, p, b);
    }
  }

  // ---------------------------------------------------------------- Migration of version 1

  function BindAll(c: Config, workspaces: seq<Workspace>, backendId: string): Config
    decreases |workspaces|
  {
    if workspaces == [] then c
    else Bind(BindAll(c, workspaces[..|workspaces| - 1], backendId), workspaces[|workspaces| - 1].projectId, backendId)
  }

  predicate Enrolled(url: string, deviceId: string) {
    CanonicalOrigin(url) != "" && deviceId != ""
  }

  function Single(digest: Digest, url: string, deviceId: string, workspaces: seq<Workspace>): Config {
    var c := Config([], [], workspaces);
    if !Enrolled(url, deviceId) then c
    else
      var backend := NewBackend(digest, url, deviceId);
      BindAll(c.(backends := [backend]), workspaces, backend.id)
  }

  lemma {:induction false} BindAllIs(c: Config, workspaces: seq<Workspace>, backendId: string)
    requires c.projects == [] && backendId != ""
    ensures var d := BindAll(c, workspaces, backendId);
            && d.backends == c.backends && d.workspaces == c.workspaces && UniqueProjects(d.projects)
            && (forall p :: p in d.projects <==>
                  p.backendId == backendId && p.id != "" && exists w :: w in workspaces && w.projectId == p.id)
  {
    if workspaces != [] {
      var front, last := workspaces[..|workspaces| - 1], workspaces[|workspaces| - 1];
      BindAllIs(c, front, backendId);
      assert workspaces == front + [last];
      PutProjectIs(BindAll(c, front, backendId).projects, Project(last.projectId, backendId));
    }
  }

  /** A migrated profile resolves every repository to its one backend exactly when it names an
      origin and a device and every repository a Project.
   */
  lemma MigratedExactlyWhen(digest: Digest, url: string, deviceId: string, workspaces: seq<Workspace>)
    ensures var c := Single(digest, url, deviceId, workspaces);
            && c.workspaces == workspaces
            && ((forall w :: w in workspaces ==> BackendForWorkspace(c, w) == Some(NewBackend(digest, url, deviceId)))
                <==> workspaces == [] || (Enrolled(url, deviceId) && forall w :: w in workspaces ==> w.projectId != ""))
            && (Enrolled(url, deviceId) && (forall w :: w in workspaces ==> w.projectId != "") ==> Consistent(c))
  {
    hide CanonicalOrigin, BindAll, FindBackend, FindProject;
    var c := Single(digest, url, deviceId, workspaces);
    var backend := NewBackend(digest, url, deviceId);
    if !Enrolled(url, deviceId) {
      assert workspaces != [] ==> workspaces[0] in workspaces && BackendForWorkspace(c, workspaces[0]) == None by {
        if workspaces != [] {
          FindProjectIs([], workspaces[0].projectId);
        }
      }
    } else {
      BindAllIs(Config([backend], [], workspaces), workspaces, backend.id);
      if forall w :: w in workspaces ==> w.projectId != "" {
        assert backend in c.backends && Known(c.backends, backend.id);
        forall w | w in workspaces ensures Bound(c.projects, w.projectId) {
          assert Project(w.projectId, backend.id) in c.projects;
        }
        forall w | w in workspaces ensures BackendForWorkspace(c, w) == Some(backend) {
          Resolves(c, Project(w.projectId, backend.id), backend);
        }
      } else {
        var w :| w in workspaces && w.projectId == "";
        FindProjectIs(c.projects, w.projectId);
      }
    }
  }

  // ---------------------------------------------------------------- Finding a backend by origin

  ghost predicate Injective(digest: Digest) {
    forall s, t :: digest(s) == digest(t) ==> s == t
  }

  lemma {:induction false} FoundAfterPut(backends: seq<Backend>, next: Backend)
    ensures FindBackend(PutBackend(backends, next), next.id) == Some(next)
  {
    if backends != [] && backends[0].id != next.id {
      FoundAfterPut(backends[1..], next);
      assert PutBackend(backends, next)[1..] == PutBackend(backends[1..], next);
    }
  }

  /** The record an origin was just enrolled under is what that origin finds exactly when one
      cleaning of the origin cleans it fully.
   */
  lemma FoundByOriginExactlyWhen(digest: Digest, c: Config, url: string, deviceId: string)
    requires Injective(digest) && Upsert(digest, c, url, deviceId).Some?
    ensures var d := Upsert(digest, c, url, deviceId).value;
            FindBackend(d.backends, BackendId(digest, url)) == Some(NewBackend(digest, CanonicalOrigin(url), deviceId))
            <==> CanonicalOrigin(CanonicalOrigin(url)) == CanonicalOrigin(url)
  {
    hide TrimSlashes, TrimRightSpace, TrimLeftSpace, FindBackend, PutBackend;
    var next := NewBackend(digest, CanonicalOrigin(url), deviceId);
    var one := CanonicalOrigin(url);
    var two := CanonicalOrigin(one);
    var three := CanonicalOrigin(two);
    assert next.id == "bk_" + digest(three) && BackendId(digest, url) == "bk_" + digest(one);
    assert ("bk_" + digest(three))[3..] == digest(three) && ("bk_" + digest(one))[3..] == digest(one);
    assert three == one <==> two == one;
    var d := Upsert(digest, c, url, deviceId).value;
    FoundAfterPut(c.backends, next);
    FindBackendIs(d.backends, BackendId(digest, url));
  }

  /** One with an inner space before its last slash is not. */
  lemma InnerSpaceIsLost()
    ensures CanonicalOrigin("x /") == "x " && CanonicalOrigin("x ") == "x"
  {
    assert "x /"[..2] == "x " && "x "[..1] == "x";
    assert TrimLeftSpace("x /") == "x /" && TrimRightSpace("x /") == "x /";
    assert TrimSlashes("x /") == TrimSlashes("x ") == "x ";
    assert TrimLeftSpace("x ") == "x " && TrimRightSpace("x ") == TrimRightSpace("x") == "x";
  }
}
