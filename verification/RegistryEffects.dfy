/** When each registry operation succeeds and what it changes, told from the records themselves. */
module RegistryEffects {
  import opened Text
  import opened Registry
  import opened Collections

  // ---------------------------------------------------------------- Origins

  predicate AllSpace(s: string) {
    forall i :: 0 <= i < |s| ==> IsSpace(s[i])
  }

  predicate AllSlashes(s: string) {
    forall i :: 0 <= i < |s| ==> s[i] == '/'
  }

  /** White space, the cleaned origin, slashes, white space: each as long as it can be. */
  predicate CleanedTo(origin: string, before: string, r: string, slashes: string, behind: string) {
    && origin == before + (r + slashes) + behind
    && AllSpace(before) && AllSpace(behind) && AllSlashes(slashes)
    && (r == "" || r[|r| - 1] != '/')
    && var kept := r + slashes; kept == "" || (!IsSpace(kept[0]) && !IsSpace(kept[|kept| - 1]))
  }

  /** Cleaning takes white space off both ends and then the slashes at the end. */
  lemma CanonicalTold(origin: string)
    ensures exists before, slashes, behind :: CleanedTo(origin, before, CanonicalOrigin(origin), slashes, behind)
  {
    hide TrimLeftSpace, TrimRightSpace, TrimSlashes, IsSpace;
    var before := LeftTold(origin);
    var left := TrimLeftSpace(origin);
    var behind := RightTold(left);
    var right := TrimRightSpace(left);
    var slashes := SlashesTold(right);
    assert right + behind == left;
    assert before + right + behind == before + (right + behind);
    if right != "" {
      assert left[0] == right[0];
    }
    assert CanonicalOrigin(origin) == TrimSlashes(right);
    assert CleanedTo(origin, before, CanonicalOrigin(origin), slashes, behind);
  }

  lemma {:induction false} LeftTold(s: string) returns (before: string)
    ensures s == before + TrimLeftSpace(s) && AllSpace(before)
    ensures TrimLeftSpace(s) != "" ==> !IsSpace(TrimLeftSpace(s)[0])
  {
    hide IsSpace;
    before := "";
    if s != "" && IsSpace(s[0]) {
      var more := LeftTold(s[1..]);
      before := [s[0]] + more;
      assert before + TrimLeftSpace(s[1..]) == [s[0]] + (more + TrimLeftSpace(s[1..]));
    }
  }

  lemma {:induction false} RightTold(s: string) returns (behind: string)
    ensures s == TrimRightSpace(s) + behind && AllSpace(behind)
    ensures TrimRightSpace(s) != "" ==> !IsSpace(TrimRightSpace(s)[|TrimRightSpace(s)| - 1])
  {
    hide IsSpace;
    behind := "";
    if s != "" && IsSpace(s[|s| - 1]) {
      var front, last := s[..|s| - 1], s[|s| - 1];
      var more := RightTold(front);
      behind := more + [last];
      assert TrimRightSpace(front) + behind == (TrimRightSpace(front) + more) + [last];
    }
  }

  lemma {:induction false} SlashesTold(s: string) returns (slashes: string)
    ensures s == TrimSlashes(s) + slashes && AllSlashes(slashes)
    ensures TrimSlashes(s) != "" ==> TrimSlashes(s)[|TrimSlashes(s)| - 1] != '/'
  {
    slashes := "";
    if s != "" && s[|s| - 1] == '/' {
      var front := s[..|s| - 1];
      var more := SlashesTold(front);
      slashes := more + "/";
      assert TrimSlashes(front) + slashes == (TrimSlashes(front) + more) + "/";
    }
  }

  // ---------------------------------------------------------------- Operations

  /** The record a device enrols with an origin: the origin is cleaned once on the way in, once for the
      record, and once more for the identifier.
   */
  predicate RecordOf(digest: Digest, url: string, deviceId: string, b: Backend) {
    && b.origin == CanonicalOrigin(CanonicalOrigin(url)) && b.deviceId == deviceId
    && b.id == "bk_" + digest(CanonicalOrigin(b.origin))
  }

  /** Another device already enrolled under this identifier. */
  ghost predicate HeldByAnother(c: Config, id: string, deviceId: string) {
    exists b :: b in c.backends && b.id == id && b.deviceId != "" && b.deviceId != deviceId
  }

  /** Enrolling succeeds exactly with an origin, a device, and no other device under the same identifier;
      the record then replaces the one of that identifier, and nothing else changes.
   */
  lemma UpsertTold(digest: Digest, c: Config, url: string, deviceId: string, next: Backend)
    requires UniqueBackends(c.backends) && RecordOf(digest, url, deviceId, next)
    ensures var r := Upsert(digest, c, url, deviceId);
            && (r.Some? <==> CanonicalOrigin(url) != "" && deviceId != "" && !HeldByAnother(c, next.id, deviceId))
            && (r.Some? ==>
                  && r.value.projects == c.projects && r.value.workspaces == c.workspaces
                  && UniqueBackends(r.value.backends)
                  && forall b :: b in r.value.backends <==> b == next || (b in c.backends && b.id != next.id))
  {
    hide CanonicalOrigin, PutBackend, FindBackend, UniqueBackends, TrimSlashes, TrimRightSpace, TrimLeftSpace;
    assert NewBackend(digest, CanonicalOrigin(url), deviceId) == next;
    FindBackendIs(c.backends, next.id);
    PutBackendIs(c.backends, next);
    if b :| b in c.backends && b.id == next.id && b.deviceId != "" && b.deviceId != deviceId {
      TheBackend(c.backends, b);
    }
  }

  /** Binding sets one Project's backend, if both are named. */
  lemma BindTold(c: Config, projectId: string, backendId: string)
    requires UniqueProjects(c.projects)
    ensures var d := Bind(c, projectId, backendId);
            if projectId == "" || backendId == "" then d == c
            else
              && d.backends == c.backends && d.workspaces == c.workspaces && UniqueProjects(d.projects)
              && forall p :: p in d.projects <==>
                   p == Project(projectId, backendId) || (p in c.projects && p.id != projectId)
  {
    hide UniqueProjects, PutProject;
    PutProjectIs(c.projects, Project(projectId, backendId));
  }

  /** Rebinding succeeds exactly for a known Project on another backend and a known backend. */
  lemma RebindTold(c: Config, projectId: string, backendId: string)
    requires UniqueProjects(c.projects)
    ensures var r := Rebind(c, projectId, backendId);
            && (r.Some? <==>
                  && projectId != "" && backendId != ""
                  && (exists b :: b in c.backends && b.id == backendId)
                  && (exists p :: p in c.projects && p.id == projectId && p.backendId != backendId))
            && (r.Some? ==>
                  && r.value.backends == c.backends && r.value.workspaces == c.workspaces
                  && UniqueProjects(r.value.projects)
                  && forall p :: p in r.value.projects <==>
                       p == Project(projectId, backendId) || (p in c.projects && p.id != projectId))
  {
    hide UniqueProjects, PutProject, FindProject, FindBackend;
    PutProjectIs(c.projects, Project(projectId, backendId));
    FindBackendIs(c.backends, backendId);
    FindProjectIs(c.projects, projectId);
    if p :| p in c.projects && p.id == projectId && p.backendId != backendId {
      TheProject(c.projects, p);
    }
  }

  /** Removing a Project takes its repositories, and removing a backend takes its Projects and theirs. */
  lemma RemovalsTold(c: Config, id: string)
    ensures var d := RemoveProject(c, id);
            && d.backends == c.backends
            && (forall p :: p in d.projects <==> p in c.projects && (id == "" || p.id != id))
            && (forall w :: w in d.workspaces <==> w in c.workspaces && (id == "" || w.projectId != id))
    ensures var d := RemoveBackend(c, id);
            && (forall b :: b in d.backends <==> b in c.backends && b.id != id)
            && (forall p :: p in d.projects <==> p in c.projects && p.backendId != id)
            && (forall w :: w in d.workspaces <==>
                  w in c.workspaces && !exists p :: p in c.projects && p.id == w.projectId && p.backendId == id)
  {
    RemoveBackendIs(c, id);
    if id != "" {
      RemoveProjectIs(c, id);
    }
    hide RemoveBackend, RemoveProject;
  }

  // ---------------------------------------------------------------- Registration

  ghost predicate BoundElsewhere(c: Config, projectId: string, id: string) {
    exists p :: p in c.projects && p.id == projectId && p.backendId != id
  }

  ghost predicate AlreadyThere(c: Config, w: Workspace) {
    exists v :: v in c.workspaces && (v.id == w.id || v.root == w.root)
  }

  /** Registering a repository succeeds exactly when it names a Project, its origin can be enrolled, the
      Project is not bound to another backend, and neither its identifier nor its directory is taken. The
      repository comes last in the list, and publishes to that backend.
   */
  lemma RegisterTold(digest: Digest, c: Config, url: string, deviceId: string, w: Workspace, next: Backend)
    requires Consistent(c) && RecordOf(digest, url, deviceId, next)
    ensures var r := Register(digest, c, url, deviceId, w);
            && (r.Some? <==>
                  && w.projectId != "" && CanonicalOrigin(url) != "" && deviceId != ""
                  && !HeldByAnother(c, next.id, deviceId) && !BoundElsewhere(c, w.projectId, next.id)
                  && !AlreadyThere(c, w))
            && (r.Some? ==>
                  && r.value.workspaces == c.workspaces + [w]
                  && (forall b :: b in r.value.backends <==> b == next || (b in c.backends && b.id != next.id))
                  && (forall p :: p in r.value.projects <==>
                        p == Project(w.projectId, next.id) || (p in c.projects && p.id != w.projectId))
                  && BackendForWorkspace(r.value, w) == Some(next))
  {
    UpsertTold(digest, c, url, deviceId, next);
    hide Upsert, CanonicalOrigin, UniqueBackends, UniqueProjects, PutProject, BackendForProject;
    hide TrimSlashes, TrimRightSpace, TrimLeftSpace;
    NextRecord(digest, url, deviceId, next);
    var upserted := Upsert(digest, c, url, deviceId);
    if upserted.Some? && w.projectId != "" {
      var u := upserted.value;
      UpsertKeeps(digest, c, url, deviceId);
      BoundTold(u, w.projectId, next.id);
      assert next.id != "";
      BindTold(u, w.projectId, next.id);
      if Register(digest, c, url, deviceId, w).Some? {
        var d := Register(digest, c, url, deviceId, w).value;
        assert Bind(u, w.projectId, next.id).backends == d.backends;
        PutProjectKeeps(u, Project(w.projectId, next.id));
        LandsOn(d, Project(w.projectId, next.id), next);
      }
    }
  }

  lemma NextRecord(digest: Digest, url: string, deviceId: string, next: Backend)
    requires RecordOf(digest, url, deviceId, next)
    ensures NewBackend(digest, CanonicalOrigin(url), deviceId) == next
  {
    hide CanonicalOrigin;
  }

  /** In a consistent registry, a Project's backend is another exactly when its record says so. */
  lemma BoundTold(c: Config, projectId: string, id: string)
    requires Consistent(c)
    ensures var bound := BackendForProject(c, projectId);
            (bound.Some? && bound.value.id != id) <==> BoundElsewhere(c, projectId, id)
  {
    hide FindBackend, FindProject, UniqueBackends, UniqueProjects;
    FindProjectIs(c.projects, projectId);
    var p := FindProject(c.projects, projectId);
    if p.Some? {
      FindBackendIs(c.backends, p.value.backendId);
      assert Known(c.backends, p.value.backendId);
    }
    if q :| q in c.projects && q.id == projectId && q.backendId != id {
      TheProject(c.projects, q);
    }
  }

  lemma LandsOn(d: Config, p: Project, b: Backend)
    requires UniqueBackends(d.backends) && UniqueProjects(d.projects)
    requires p in d.projects && b in d.backends && p.backendId == b.id
    ensures BackendForProject(d, p.id) == Some(b)
  {
    hide FindBackend, FindProject, UniqueBackends, UniqueProjects;
    TheProject(d.projects, p);
    TheBackend(d.backends, b);
  }
}
