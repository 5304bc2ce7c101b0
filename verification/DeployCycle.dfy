/** A deploy that goes wrong, end to end: tag what runs, pull, fail, roll back, clean up. */
module DeployCycle {
  import opened Common
  import opened Refs
  import opened Tagging
  import opened Retagging
  import opened Rollback
  import opened Checks
  import U = Updater

  // ---- which container speaks for a project ----

  /** Exited containers count as running. */
  predicate CountsAsRunning(c: Container) { c.state == "running" || c.state == "exited" }

  ghost predicate FirstRunning(cs: seq<Container>, k: nat) {
    k < |cs| && CountsAsRunning(cs[k]) && forall j :: 0 <= j < k ==> !CountsAsRunning(cs[j])
  }

  /** What a listing says about the project; a failed listing reads as empty. */
  function StatusOf(listed: Option<seq<Container>>): U.ContainerStatus {
    if listed.None? || listed.value == [] then U.NoContainer
    else if exists c :: c in listed.value && CountsAsRunning(c) then U.Running
    else U.Stuck
  }

  /** The container a project is judged by, and the project status. A failed listing reads as none. */
  method FindContainerByProject(listed: Option<seq<Container>>)
      returns (found: Option<Container>, status: U.ContainerStatus)
    ensures status == StatusOf(listed)
    ensures status.NoContainer? ==> found == None
    ensures status.Stuck? ==> found == Some(listed.value[0])
    ensures status.Running? ==> exists k: nat :: FirstRunning(listed.value, k) && found == Some(listed.value[k])
  {
    if listed.None? || listed.value == [] { return None, U.NoContainer; }
    var cs, i := listed.value, 0;
    while i < |cs|
      invariant 0 <= i <= |cs|
      invariant forall j :: 0 <= j < i ==> !CountsAsRunning(cs[j])
    {
      if cs[i].state == "running" || cs[i].state == "exited" {
        assert FirstRunning(cs, i);
        return Some(cs[i]), U.Running;
      }
      i := i + 1;
    }
    return Some(cs[0]), U.Stuck;
  }

  ghost predicate FirstUpToDate(t: U.Tables, s: string, images: seq<string>, rs: seq<U.Reading>, i: nat)
    requires |rs| == |images|
  {
    i < |images| && UpToDate(t, s, images, rs, i) && forall j: nat :: j < i ==> !UpToDate(t, s, images, rs, j)
  }

  /** A start at the first up-to-date image's digest is on record. */
  ghost predicate StartOnRecord(t: U.Tables, s: string, images: seq<string>, rs: seq<U.Reading>)
    requires |rs| == |images|
  {
    exists i: nat :: FirstUpToDate(t, s, images, rs, i) && rs[i].remote == Get(t.startAttempted, s)
  }

  /** An auto-start is decided exactly when every image was read and none is out of date, the listing
      shows no running and no exited container, and no start at the first up-to-date digest is on record.
      A project whose containers have exited is thus left alone; one with containers that do none of this
      is stuck, and is taken down first. */
  lemma AutoStartExactly(t: U.Tables, svc: U.Service, rs: seq<U.Reading>, listed: Option<seq<Container>>)
    requires |rs| == |svc.images| && Distinct(svc.images)
    ensures var next := U.Check(t, svc, rs, StatusOf(listed)).1;
            next.AutoStart? ==> (next.stuck <==> listed.Some? && listed.value != [])
    ensures U.Check(t, svc, rs, StatusOf(listed)).1.AutoStart? <==>
              && (forall i :: 0 <= i < |rs| ==> rs[i].Reading?)
              && (forall i: nat :: i < |rs| ==> !OutOfDate(t, svc.name, svc.images, rs, i))
              && (listed.Some? ==> forall c :: c in listed.value ==> c.state != "running" && c.state != "exited")
              && svc.autoStart
              && !StartOnRecord(t, svc.name, svc.images, rs)
  {
    hide UpToDate, OutOfDate, U.CheckImages, U.Suppressed, U.Check, Get;
    CheckStarts(t, svc, rs, StatusOf(listed));
    NothingToDeploy(t, svc.name, svc.images, rs);
    AttemptedExactly(t, svc.name, svc.images, rs);
    assert StatusOf(listed).Running? <==> listed.Some? && exists c :: c in listed.value && CountsAsRunning(c);
  }

  lemma CheckStarts(t: U.Tables, svc: U.Service, rs: seq<U.Reading>, status: U.ContainerStatus)
    requires |rs| == |svc.images|
    ensures U.Check(t, svc, rs, status).1.AutoStart? ==> (U.Check(t, svc, rs, status).1.stuck <==> status.Stuck?)
    ensures var sc := U.CheckImages(t, svc.name, svc.images, rs);
            U.Check(t, svc, rs, status).1.AutoStart? <==>
              sc.failure.None? && sc.changed == [] && !status.Running? && svc.autoStart
              && !U.Suppressed(t.startAttempted, svc.name, sc.representative)
  {
    hide U.CheckImages, U.ClearPollError, U.Suppressed, Times;
    CheckTouchesOnlyItsTables(t, svc.name, svc.images, rs);
  }

  lemma AttemptedExactly(t: U.Tables, s: string, images: seq<string>, rs: seq<U.Reading>)
    requires |rs| == |images| && Distinct(images)
    ensures U.Suppressed(t.startAttempted, s, U.CheckImages(t, s, images, rs).representative)
       <==> StartOnRecord(t, s, images, rs)
  {
    hide U.CheckImages, Get, Key;
    var d := U.CheckImages(t, s, images, rs).representative;
    RepresentativeIsFirst(t, s, images, rs);
    if d == "" {
      assert forall i: nat :: !FirstUpToDate(t, s, images, rs, i);
    } else {
      var i: nat :| FirstUpToDate(t, s, images, rs, i) && rs[i].remote == d;
      assert forall k: nat :: FirstUpToDate(t, s, images, rs, k) ==> k == i;
    }
  }

  // ---- rollback ----

  /** Untag the rollback references; Docker may refuse to remove some of them. */
  function CleanupRollbacks(tags: Tags, pinned: set<string>, host: string, chs: seq<ImageChange>): Tags {
    if chs == [] then tags
    else
      var before, r := CleanupRollbacks(tags, pinned, host, chs[..|chs| - 1]), RollbackRef(host, chs[|chs| - 1].image);
      if r in pinned then before else before - {r}
  }

  datatype Result = TagFailed | ComposeFailed | RolledBack

  method Cleanup(docker: Docker, host: string, changed: array<ImageChange>)
    modifies docker
    ensures docker.tags == CleanupRollbacks(old(docker.tags), docker.pinned, host, changed[..])
  {
    var i := 0;
    while i < changed.Length
      invariant 0 <= i <= changed.Length
      invariant docker.tags == CleanupRollbacks(old(docker.tags), docker.pinned, host, changed[..i])
    {
      assert changed[..i + 1][..i] == changed[..i];
      var _ := docker.RemoveImage(RollbackRef(host, changed[i].image));
      i := i + 1;
    }
    assert changed[..i] == changed[..];
  }

  /** Block the new digests, retag, bring the old images up, clean up. A failed retag stops before compose. */
  method RollBack(u: U.Updater, docker: Docker, host: string, service: string, changed: array<ImageChange>, upOk: bool)
    returns (r: Result)
    modifies u, docker
    ensures u.View() == U.Block(old(u.View()), service, changed[..])
    ensures var (retagged, failed) := Retag(old(docker.tags), docker.refused, host, changed[..]);
            && r == (if failed then TagFailed else if !upOk then ComposeFailed else RolledBack)
            && docker.tags == if r.RolledBack?
                              then CleanupRollbacks(retagged, docker.pinned, host, changed[..])
                              else retagged
  {
    u.BlockChanged(service, changed);
    var failed := RetagAll(docker, host, changed);
    if failed { return TagFailed; }
    if !upOk { return ComposeFailed; }
    Cleanup(docker, host, changed);
    return RolledBack;
  }

  /** Exactly the rollback references of the changed images that Docker lets go are gone. */
  lemma {:induction false} CleanupExactly(tags: Tags, pinned: set<string>, host: string, chs: seq<ImageChange>,
      r: string)
    ensures Lookup(CleanupRollbacks(tags, pinned, host, chs), r)
         == if r !in pinned && exists i :: 0 <= i < |chs| && r == RollbackRef(host, chs[i].image)
            then None else Lookup(tags, r)
  {
    hide RollbackRef;
    if chs != [] {
      var n := |chs| - 1;
      CleanupExactly(tags, pinned, host, chs[..n], r);
      assert forall i :: 0 <= i < n ==> chs[..n][i] == chs[i];
    }
  }

  /** Neither reference of an image is a rollback reference, so cleaning up neither undoes nor feigns a
      restoration. */
  lemma CleanupKeepsRestored(tags: Tags, refused: set<string>, pinned: set<string>, host: string, cs: seq<Container>,
                             chs: seq<ImageChange>, ch: ImageChange)
    requires Ready(host, refused, cs, ch)
    ensures Restored(CleanupRollbacks(tags, pinned, host, CapturedAll(cs, chs)), host, cs, ch) <==>
          Restored(tags, host, cs, ch)
  {
    hide RollbackRef, RefsOf, Written, ImageName, Canonical, ParseImageRef, ImageTag, Previous;
    forall r | r in RefsOf(host, cs, ch)
      ensures Lookup(CleanupRollbacks(tags, pinned, host, CapturedAll(cs, chs)), r) == Lookup(tags, r)
    {
      forall i | 0 <= i < |chs| ensures r != RollbackRef(host, CapturedAll(cs, chs)[i].image) {
        RefIsNoRollbackRef(host, refused, cs, ch, r, CapturedAll(cs, chs)[i].image);
      }
      CleanupExactly(tags, pinned, host, CapturedAll(cs, chs), r);
    }
  }

  lemma RefIsNoRollbackRef(host: string, refused: set<string>, cs: seq<Container>, ch: ImageChange, r: string,
      image: string)
    requires Ready(host, refused, cs, ch) && r in RefsOf(host, cs, ch)
    ensures r != RollbackRef(host, image)
  {
    hide ImageName, ImageTag, ParseImageRef, Previous, Prefix, RollbackRef, Canonical, ComposeRef, HasSuffix;
    WrittenIsNoRollbackRef(host, refused, cs, ch, image);
    RunningRefIsNoRollbackRef(host, refused, cs, ch);
    RollbackRefIsCanonical(host, image);
  }

  ghost predicate AllRestored(tags: Tags, host: string, cs: seq<Container>, chs: seq<ImageChange>) {
    forall i :: 0 <= i < |chs| ==> Previous(cs, chs[i]).Some? && Restored(tags, host, cs, chs[i])
  }

  /** The whole cycle of a failed deploy: afterwards every image name refers to what ran before, and
      every new digest is blocked, whether or not compose and the cleanup succeed. `pulled` is whatever
      the pull left, short of moving rollback tags. */
  method FailedDeploy(u: U.Updater, docker: Docker, host: string, service: string, containers: seq<Container>,
                      changed: array<ImageChange>, pulled: Tags, upOk: bool) returns (r: Result)
    requires AllReady(host, docker.refused, containers, changed[..])
    requires forall i :: 0 <= i < changed.Length ==> Uncontested(host, containers, changed[..], changed[i])
    requires PullKeepsRollbackTags(Prepare(docker.tags, docker.refused, host, containers, changed[..]), pulled)
    modifies u, docker, changed
    ensures r == if upOk then RolledBack else ComposeFailed
    ensures AllRestored(docker.tags, host, containers, old(changed[..]))
    ensures u.View() == U.Block(old(u.View()), service, CapturedAll(containers, old(changed[..])))
  {
    hide *;
    ghost var chs, tags := changed[..], docker.tags;
    assert forall i :: 0 <= i < |chs| ==> chs[i] == changed[i];
    TagRunningImages(docker, host, containers, changed);
    docker.tags := pulled;
    NothingContestedRestores(tags, pulled, docker.refused, docker.pinned, host, containers, chs);
    r := RollBack(u, docker, host, service, changed, upOk);
  }

  lemma NothingContestedRestores(tags: Tags, pulled: Tags, refused: set<string>, pinned: set<string>, host: string,
                                 cs: seq<Container>, chs: seq<ImageChange>)
    requires AllReady(host, refused, cs, chs)
    requires PullKeepsRollbackTags(Prepare(tags, refused, host, cs, chs), pulled)
    requires forall i :: 0 <= i < |chs| ==> Uncontested(host, cs, chs, chs[i])
    ensures var (retagged, failed) := Retag(pulled, refused, host, CapturedAll(cs, chs));
            && !failed
            && AllRestored(retagged, host, cs, chs)
            && AllRestored(CleanupRollbacks(retagged, pinned, host, CapturedAll(cs, chs)), host, cs, chs)
  {
    hide Retag, CapturedAll, CleanupRollbacks, Restored, Uncontested, Prepare, PullKeepsRollbackTags, RunningId,
      RollbackRef;
    PullKeepsIds(tags, pulled, refused, host, cs, chs);
    RetagWrites(pulled, refused, host, cs, chs, "");
    UncontestedRestores(tags, pulled, refused, host, cs, chs);
    var retagged := Retag(pulled, refused, host, CapturedAll(cs, chs)).0;
    forall i | 0 <= i < |chs|
      ensures Restored(retagged, host, cs, chs[i])
      ensures Restored(CleanupRollbacks(retagged, pinned, host, CapturedAll(cs, chs)), host, cs, chs[i])
    {
      assert Ready(host, refused, cs, chs[i]);
      CleanupKeepsRestored(retagged, refused, pinned, host, cs, chs, chs[i]);
    }
  }
}
