/** The updater's tables and the operations that change them: per-image checks, blocking,
    poll-error suppression, auto-start guard, compose drift and manual unblock. */
module Updater {
  import opened Common
  import opened Refs
  import opened Tagging

  type Digest = string

  datatype Alert =
    | NotFoundAlert(key: string, digest: Digest)
    | PollErrorAlert(service: string, message: string)

  /** The maps an Updater keeps, the blocked gauge it drives, and the alerts it has sent. */
  datatype Tables = Tables(
    deploying: set<string>,
    blocked: map<string, Digest>,
    notFound: map<string, Digest>,
    errored: map<string, string>,
    startAttempted: map<string, Digest>,
    composeHashes: map<string, string>,
    blockedGauge: map<string, bool>,
    sent: seq<Alert>)

  const EMPTY_TABLES := Tables({}, map[], map[], map[], map[], map[], map[], [])

  datatype Service = Service(name: string, images: seq<string>, autoStart: bool)

  /** What one image check observes: the registry answer, and the digest resolved locally ("" if none). */
  datatype Reading = RegistryError(message: string) | Reading(remote: Digest, local: Digest)

  /** No containers, only created or restarting ones, or at least one running or exited. */
  datatype ContainerStatus = NoContainer | Stuck | Running

  /** What a check decides to do once its tables are updated. */
  datatype Next =
    | Idle
    | Failed(message: string)
    | AutoStart(stuck: bool, representative: Digest)
    | Deploy(changed: seq<ImageChange>)

  // ---- single-map operations ----

  function TryStart(t: Tables, s: string): (Tables, bool) {
    if s in t.deploying then (t, false) else (t.(deploying := t.deploying + {s}), true)
  }

  function ClearDeploying(t: Tables, s: string): Tables { t.(deploying := t.deploying - {s}) }

  function PollError(t: Tables, s: string, msg: string): Tables {
    if Get(t.errored, s) == msg then t
    else t.(errored := t.errored[s := msg], sent := t.sent + [PollErrorAlert(s, msg)])
  }

  function ClearPollError(t: Tables, s: string): Tables {
    if Get(t.errored, s) == "" then t else t.(errored := t.errored - {s})
  }

  lemma ClearPollErrorShape(t: Tables, s: string)
    ensures ClearPollError(t, s) == t.(errored := ClearPollError(t, s).errored)
  {}

  lemma PollErrorShape(t: Tables, s: string, msg: string)
    ensures var t' := PollError(t, s, msg);
            && t' == t.(errored := t'.errored, sent := t'.sent)
            && (t'.sent == t.sent || t'.sent == t.sent + [PollErrorAlert(s, msg)])
  {}

  // ---- the per-image loop of checkAndUpdate ----

  /** The loop's state: tables, images found changed, digest for the auto-start guard, registry error. */
  datatype Scan = Scan(t: Tables, changed: seq<ImageChange>, representative: Digest, failure: Option<string>)

  /** A remote digest other than the blocked one lifts the block. */
  function LiftBlock(t: Tables, s: string, key: string, remote: Digest): Tables {
    var d := Get(t.blocked, key);
    if d != "" && d != remote then t.(blocked := t.blocked - {key}, blockedGauge := t.blockedGauge[s := false]) else t
  }

  function LiftNotFound(t: Tables, key: string, remote: Digest): Tables {
    var d := Get(t.notFound, key);
    if d != "" && d != remote then t.(notFound := t.notFound - {key}) else t
  }

  predicate Suppressed(m: map<string, Digest>, key: string, remote: Digest) {
    Get(m, key) != "" && Get(m, key) == remote
  }

  function CheckImage(sc: Scan, s: string, image: string, r: Reading): Scan
    requires sc.failure.None?
  {
    var key := Key(s, image);
    match r
    case RegistryError(msg) => sc.(failure := Some(msg))
    case Reading(remote, local) =>
      if Suppressed(sc.t.blocked, key, remote) then sc
      else
        var t1 := LiftBlock(sc.t, s, key, remote);
        if Suppressed(t1.notFound, key, remote) then sc.(t := t1)
        else
          var t2 := LiftNotFound(t1, key, remote);
          if local == "" then
            sc.(t := t2.(notFound := t2.notFound[key := remote], sent := t2.sent + [NotFoundAlert(key, remote)]))
          else if local == remote then
            sc.(t := t2, representative := if sc.representative == "" then remote else sc.representative)
          else
            sc.(t := t2, changed := sc.changed + [ImageChange(image, local, remote, "")])
  }

  function CheckImages(t: Tables, s: string, images: seq<string>, rs: seq<Reading>): Scan
    requires |rs| == |images|
  {
    if images == [] then Scan(t, [], "", None)
    else
      var n := |images| - 1;
      var sc := CheckImages(t, s, images[..n], rs[..n]);
      if sc.failure.Some? then sc else CheckImage(sc, s, images[n], rs[n])
  }

  /** The whole check up to the point where compose would be invoked. */
  function Check(t: Tables, svc: Service, rs: seq<Reading>, status: ContainerStatus): (Tables, Next)
    requires |rs| == |svc.images|
  {
    var sc := CheckImages(t, svc.name, svc.images, rs);
    if sc.failure.Some? then (sc.t, Failed(sc.failure.value))
    else if sc.changed != [] then (ClearPollError(sc.t, svc.name), Deploy(sc.changed))
    else if status.Running? then
      (ClearPollError(sc.t.(startAttempted := sc.t.startAttempted - {svc.name}), svc.name), Idle)
    else if !svc.autoStart then (ClearPollError(sc.t, svc.name), Idle)
    else if Suppressed(sc.t.startAttempted, svc.name, sc.representative) then (sc.t, Idle)
    else
      var t' := sc.t.(startAttempted := sc.t.startAttempted[svc.name := sc.representative]);
      (TryStart(t', svc.name).0, AutoStart(status.Stuck?, sc.representative))
  }

  // ---- rollback, unblock, drift, cleanup ----

  function BlockDigests(blocked: map<string, Digest>, s: string, changed: seq<ImageChange>): map<string, Digest> {
    if changed == [] then blocked
    else
      var n := |changed| - 1;
      BlockDigests(blocked, s, changed[..n])[Key(s, changed[n].image) := changed[n].newDigest]
  }

  /** The bookkeeping of a rollback: every new digest is blocked and the gauge raised. */
  function Block(t: Tables, s: string, changed: seq<ImageChange>): Tables {
    t.(blocked := BlockDigests(t.blocked, s, changed), blockedGauge := t.blockedGauge[s := true])
  }

  function Without(m: map<string, Digest>, prefix: string): map<string, Digest> {
    map k | k in m && !HasPrefix(k, prefix) :: m[k]
  }

  function Unblock(t: Tables, s: string): (Tables, bool) {
    if exists k :: k in t.blocked && HasPrefix(k, s + "/") then
      (t.(blocked := Without(t.blocked, s + "/"), blockedGauge := t.blockedGauge[s := false]), true)
    else (t, false)
  }

  /** A compose file hash is stored on first sight; later changes ask for a redeploy. */
  function Drift(t: Tables, s: string, hash: string): (Tables, bool) {
    var prev := Get(t.composeHashes, s);
    var t' := t.(composeHashes := t.composeHashes[s := hash]);
    if prev == "" || prev == hash then (t', false) else (TryStart(t', s).0, true)
  }

  /** The hourly cleanup keeps the entries of configured services only. */
  function Cleanup(t: Tables, current: set<string>): Tables {
    t.(errored := map k | k in t.errored && k in current :: t.errored[k],
       startAttempted := map k | k in t.startAttempted && k in current :: t.startAttempted[k],
       composeHashes := map k | k in t.composeHashes && k in current :: t.composeHashes[k])
  }

  // ---- the object the source keeps these tables in ----

  class Updater {
    var deploying: set<string>
    var blocked: map<string, Digest>
    var notFound: map<string, Digest>
    var errored: map<string, string>
    var startAttempted: map<string, Digest>
    var composeHashes: map<string, string>
    var blockedGauge: map<string, bool>
    var sent: seq<Alert>

    ghost function View(): Tables
      reads this
    {
      Tables(deploying, blocked, notFound, errored, startAttempted, composeHashes, blockedGauge, sent)
    }

    constructor ()
      ensures View() == EMPTY_TABLES
    {
      deploying, sent := {}, [];
      blocked, notFound, errored := map[], map[], map[];
      startAttempted, composeHashes, blockedGauge := map[], map[], map[];
    }

    method TryStartDeploy(service: string) returns (ok: bool)
      modifies this
      ensures (View(), ok) == TryStart(old(View()), service)
    {
      if service in deploying { return false; }
      deploying := deploying + {service};
      return true;
    }

    method ClearDeployingFlag(service: string)
      modifies this
      ensures View() == ClearDeploying(old(View()), service)
    {
      deploying := deploying - {service};
    }

    method HandlePollError(service: string, msg: string)
      modifies this
      ensures View() == PollError(old(View()), service, msg)
    {
      var prev := Get(errored, service);
      if prev == msg { return; }
      errored := errored[service := msg];
      sent := sent + [PollErrorAlert(service, msg)];
    }

    method ClearError(service: string)
      modifies this
      ensures View() == ClearPollError(old(View()), service)
    {
      var wasErrored := Get(errored, service) != "";
      if !wasErrored { return; }
      errored := errored - {service};
    }

    /** One pass of the per-image loop; each early return is a `continue` of the loop. */
    method CheckOneImage(s: string, image: string, r: Reading, changed: seq<ImageChange>, representative: Digest)
      returns (changed': seq<ImageChange>, representative': Digest, failure: Option<string>)
      modifies this
      ensures Scan(View(), changed', representative', failure)
           == CheckImage(Scan(old(View()), changed, representative, None), s, image, r)
    {
      changed', representative', failure := changed, representative, None;
      var key := s + "/" + image;
      if r.RegistryError? { failure := Some(r.message); return; }
      var blockedDigest := Get(blocked, key);
      if blockedDigest != "" {
        if blockedDigest == r.remote { return; }
        blocked := blocked - {key};
        blockedGauge := blockedGauge[s := false];
      }
      var notFoundDigest := Get(notFound, key);
      if notFoundDigest != "" {
        if notFoundDigest == r.remote { return; }
        notFound := notFound - {key};
      }
      if r.local == "" {
        notFound := notFound[key := r.remote];
        sent := sent + [NotFoundAlert(key, r.remote)];
        return;
      }
      if r.local == r.remote {
        if representative == "" { representative' := r.remote; }
        return;
      }
      changed' := changed + [ImageChange(image, r.local, r.remote, "")];
    }

    /** The per-image loop. */
    method CheckAllImages(s: string, images: seq<string>, rs: seq<Reading>)
      returns (changed: seq<ImageChange>, representative: Digest, failure: Option<string>)
      requires |rs| == |images|
      modifies this
      ensures Scan(View(), changed, representative, failure) == CheckImages(old(View()), s, images, rs)
    {
      changed, representative, failure := [], "", None;
      var i := 0;
      while i < |images| && failure.None?
        invariant 0 <= i <= |images|
        invariant Scan(View(), changed, representative, failure) == CheckImages(old(View()), s, images[..i], rs[..i])
      {
        assert images[..i + 1][..i] == images[..i] && rs[..i + 1][..i] == rs[..i];
        changed, representative, failure := CheckOneImage(s, images[i], rs[i], changed, representative);
        i := i + 1;
      }
      if failure.Some? {
        FailureStops(old(View()), s, images, rs, i);
      } else {
        assert images[..i] == images && rs[..i] == rs;
      }
    }

    method CheckAndUpdate(svc: Service, rs: seq<Reading>, status: ContainerStatus) returns (next: Next)
      requires |rs| == |svc.images|
      modifies this
      ensures (View(), next) == Check(old(View()), svc, rs, status)
    {
      hide CheckImages;
      var changed, representative, failure := CheckAllImages(svc.name, svc.images, rs);
      if failure.Some? { return Failed(failure.value); }
      if changed == [] {
        if status == Running {
          startAttempted := startAttempted - {svc.name};
          ClearError(svc.name);
          return Idle;
        }
        if !svc.autoStart {
          ClearError(svc.name);
          return Idle;
        }
        var attempted := Get(startAttempted, svc.name);
        if attempted != "" && attempted == representative { return Idle; }
        startAttempted := startAttempted[svc.name := representative];
        var _ := TryStartDeploy(svc.name);
        return AutoStart(status == Stuck, representative);
      }
      ClearError(svc.name);
      return Deploy(changed);
    }

    /** The blocking loop of rollback. */
    method BlockChanged(service: string, changed: array<ImageChange>)
      modifies this
      ensures View() == Block(old(View()), service, changed[..])
    {
      var i := 0;
      while i < changed.Length
        invariant 0 <= i <= changed.Length
        invariant View() == old(View()).(blocked := BlockDigests(old(blocked), service, changed[..i]))
      {
        assert changed[..i + 1][..i] == changed[..i];
        blocked := blocked[service + "/" + changed[i].image := changed[i].newDigest];
        i := i + 1;
      }
      assert changed[..i] == changed[..];
      blockedGauge := blockedGauge[service := true];
    }

    /** The prefix scan visits the keys in any order. */
    method UnblockService(service: string) returns (found: bool)
      modifies this
      ensures (View(), found) == Unblock(old(View()), service)
    {
      var prefix := service + "/";
      found := false;
      var todo := blocked.Keys;
      while todo != {}
        invariant todo <= old(blocked).Keys
        invariant View() == old(View()).(blocked := blocked)
        invariant forall k :: k in blocked <==> k in old(blocked) && (k in todo || !HasPrefix(k, prefix))
        invariant forall k :: k in blocked ==> blocked[k] == old(blocked)[k]
        invariant found <==> exists k :: k in old(blocked) && k !in todo && HasPrefix(k, prefix)
        decreases todo
      {
        var k :| k in todo;
        todo := todo - {k};
        if HasPrefix(k, prefix) {
          blocked := blocked - {k};
          found := true;
        }
      }
      if found {
        assert blocked == Without(old(blocked), prefix);
        blockedGauge := blockedGauge[service := false];
      } else {
        assert blocked == old(blocked);
      }
    }

    method CleanupOldEntries(current: set<string>)
      modifies this
      ensures View() == Cleanup(old(View()), current)
    {
      errored := DeleteUnlisted(errored, current);
      startAttempted := DeleteUnlisted(startAttempted, current);
      composeHashes := DeleteUnlisted(composeHashes, current);
    }

    /** Nothing happens without compose files or when one cannot be read. Otherwise true means that the
        caller must redeploy; the deploying flag is then set, whoever holds it. */
    method CheckComposeDrift(service: string, files: seq<string>, hashed: Option<string>) returns (redeploy: bool)
      modifies this
      ensures files == [] || hashed.None? ==> View() == old(View()) && !redeploy
      ensures files != [] && hashed.Some? ==> (View(), redeploy) == Drift(old(View()), service, hashed.value)
    {
      if files == [] { return false; }
      if hashed.None? { return false; }
      var hash := hashed.value;
      var prev := Get(composeHashes, service);
      composeHashes := composeHashes[service := hash];
      if prev == "" || prev == hash { return false; }
      var _ := TryStartDeploy(service);
      return true;
    }
  }

  /** A deletion loop over a table's keys, in any order. */
  method DeleteUnlisted(m: map<string, string>, current: set<string>) returns (kept: map<string, string>)
    ensures kept == map k | k in m && k in current :: m[k]
  {
    kept := m;
    var todo := m.Keys;
    while todo != {}
      invariant todo <= m.Keys
      invariant forall k :: k in kept <==> k in m && (k in todo || k in current)
      invariant forall k :: k in kept ==> kept[k] == m[k]
      decreases todo
    {
      var k :| k in todo;
      todo := todo - {k};
      if k !in current { kept := kept - {k}; }
    }
  }

  /** A registry error on one image ends the loop: later images are not looked at. */
  lemma {:induction false} FailureStops(t: Tables, s: string, images: seq<string>, rs: seq<Reading>, k: nat)
    requires |rs| == |images| && k <= |images|
    requires CheckImages(t, s, images[..k], rs[..k]).failure.Some?
    ensures CheckImages(t, s, images, rs) == CheckImages(t, s, images[..k], rs[..k])
    decreases |images|
  {
    hide CheckImage;
    if k == |images| {
      assert images[..k] == images && rs[..k] == rs;
    } else {
      var n := |images| - 1;
      assert images[..n][..k] == images[..k] && rs[..n][..k] == rs[..k];
      FailureStops(t, s, images[..n], rs[..n], k);
    }
  }
}
